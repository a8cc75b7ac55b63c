/** What the reward schedule delivers over whole chains of accepted blocks. */
module RewardDelivery {
  import opened Common
  import opened VoteReward
  import opened RewardBatches
  import opened ForkChain
  import opened RewardSchedule

  // ----- acceptance of one block's transactions

  /** A block transaction: a TX_VOTE_REWARD, or any other type. */
  datatype BlockTx = VoteRewardTx(tx: RewardTx) | OtherTx(id: nat)

  /** The reward transactions of a block. */
  ghost function RewardsIn(vtx: seq<BlockTx>): seq<RewardTx>
  {
    if vtx == [] then [] else
      RewardsIn(vtx[..|vtx| - 1]) + if vtx[|vtx| - 1].VoteRewardTx? then [vtx[|vtx| - 1].tx] else []
  }

  /** `VerifyVoteRewardTx` against the due list, then the type rules of `VerifyBlockTx`. */
  method VerifyRewards(vtx: seq<BlockTx>, due: seq<RewardTx>) returns (ok: bool)
    ensures ok <==> |due| <= |vtx| && (forall i :: 0 <= i < |due| ==> vtx[i] == VoteRewardTx(due[i]))
                    && forall i :: |due| <= i < |vtx| ==> !vtx[i].VoteRewardTx?
  {
    if |vtx| < |due| {
      return false;
    }
    var i := 0;
    while i < |due|
      invariant 0 <= i <= |due|
      invariant forall j :: 0 <= j < i ==> vtx[j] == VoteRewardTx(due[j])
    {
      if VoteRewardTx(due[i]) != vtx[i] {
        return false;
      }
      i := i + 1;
    }
    var ignore := |due|;
    i := 0;
    while i < |vtx|
      invariant 0 <= i <= |vtx|
      invariant ignore == if i <= |due| then |due| - i else 0
      invariant forall j :: |due| <= j < i ==> !vtx[j].VoteRewardTx?
    {
      if ignore > 0 {
        ignore := ignore - 1;
        if !vtx[i].VoteRewardTx? {
          return false;
        }
      } else if vtx[i].VoteRewardTx? {
        return false;
      }
      i := i + 1;
    }
    ok := true;
  }

  /** An accepted block carries the due transactions and no other reward transaction. */
  lemma {:induction false} AcceptedRewards(vtx: seq<BlockTx>, due: seq<RewardTx>)
    requires |due| <= |vtx| && (forall i :: 0 <= i < |due| ==> vtx[i] == VoteRewardTx(due[i]))
    requires forall i :: |due| <= i < |vtx| ==> !vtx[i].VoteRewardTx?
    ensures RewardsIn(vtx) == due
    decreases |vtx|
  {
    if vtx != [] {
      var n := |vtx| - 1;
      if |due| == |vtx| {
        AcceptedRewards(vtx[..n], due[..n]);
        assert due == due[..n] + [due[n]];
      } else {
        AcceptedRewards(vtx[..n], due);
      }
    }
  }

  // ----- accepted chains

  /** Every block is linked, counted and carries what `CalcBlockVoteRewardTx` answered for it. */
  ghost predicate Accepted(env: Env, c: Chain)
    requires env.period > 0
  {
    c.Null? || (&& Accepted(env, c.prev)
                && LinkedHere(c.info, c.prev)
                && CountedHere(c.info, c.prev)
                && if c.prev.Null? || c.info.kind.Origin? then c.info.rewardTxs == []
                   else Outcome(env, c.prev, c.info.kind, c.info.height, c.info.rewardTxs))
  }

  /** What `CalcEndVoteReward` guarantees: batches are non-empty and their payments depend on the period only. */
  ghost predicate Lawful(env: Env)
  {
    && env.period > 0
    && (forall h, p, q :: env.compute(h, p).Some? && env.compute(h, q).Some? ==>
                            SamePays(env.compute(h, p).value, env.compute(h, q).value))
    && (forall h, p, b :: env.compute(h, p).Some? && 0 <= b < |env.compute(h, p).value| ==>
                            env.compute(h, p).value[b] != [])
  }

  /** The batches of the period that `h` closes. */
  ghost function Batches(env: Env, h: Hash): seq<seq<RewardTx>>
    requires Computable(env, h)
    ensures Computed(env, h, Batches(env, h))
  {
    var list :| Computed(env, h, list);
    list
  }

  /** The running period of `c` belongs to its fork and its batches can be computed. */
  ghost predicate Running(env: Env, c: Chain)
    requires env.period > 0
  {
    var e := PeriodEnd(c, env.period);
    c.Block? && e.Block? && e.info.origin == c.info.origin && Computable(env, e.info.hash)
  }

  ghost function BatchesOf(env: Env, c: Chain): seq<seq<RewardTx>>
    requires env.period > 0 && Running(env, c)
  {
    Batches(env, PeriodEnd(c, env.period).info.hash)
  }

  /** What the block after `prev` has to carry: the next batch, with no shortcut and no cache. */
  ghost function Due(env: Env, prev: Chain, kind: Kind, height: nat): seq<RewardTx>
    requires env.period > 0
  {
    if prev.Null? || Exempt(env.period, prev.info.height, kind, height) || !Running(env, prev) then []
    else Slot(BatchesOf(env, prev), BatchIndex(prev, env.period))
  }

  ghost predicate SamePayList(a: seq<RewardTx>, b: seq<RewardTx>)
  {
    |a| == |b| && forall i :: 0 <= i < |a| ==> SamePay(a[i], b[i])
  }

  /** The block carries exactly what is due. */
  ghost predicate Exact(env: Env, c: Chain)
    requires env.period > 0 && c.Block?
  {
    SamePayList(c.info.rewardTxs, Due(env, c.prev, c.info.kind, c.info.height))
  }

  lemma SlotSamePay(a: seq<seq<RewardTx>>, b: seq<seq<RewardTx>>, i: nat)
    requires SamePays(a, b)
    ensures SamePayList(Slot(a, i), Slot(b, i))
  {
  }

  /** Without the shortcut, every possible answer is what is due. */
  lemma SlowPathExact(env: Env, prev: Chain, kind: Kind, height: nat, txs: seq<RewardTx>)
    requires Lawful(env) && prev.Block? && Outcome(env, prev, kind, height, txs) && !EarlyExit(prev, env.period)
    ensures SamePayList(txs, Due(env, prev, kind, height))
    ensures !Exempt(env.period, prev.info.height, kind, height) ==>
              Running(env, prev) || PeriodEnd(prev, env.period).info.origin != prev.info.origin
  {
    var e := PeriodEnd(prev, env.period);
    if !Exempt(env.period, prev.info.height, kind, height) && e.info.origin == prev.info.origin {
      var list :| Computed(env, e.info.hash, list) && txs == Slot(list, BatchIndex(prev, env.period));
      SlotSamePay(list, BatchesOf(env, prev), BatchIndex(prev, env.period));
    }
  }

  /**
   * A block that closes a period, lies in the first one, or is an origin or vacant is asked to carry nothing, whatever
   * is known, and so is always allowed.
   */
  lemma ExemptCarriesNothing(env: Env, prev: Chain, kind: Kind, height: nat, txs: seq<RewardTx>)
    requires env.period > 0 && prev.Block?
    requires height % env.period == 0 || prev.info.height < env.period || kind in {Origin, Vacant}
    ensures Outcome(env, prev, kind, height, txs) <==> txs == []
  {
  }

  // ----- how the schedule advances

  /** Inside a period a carrying block keeps the period's end and moves on to the next batch. */
  lemma IndexStep(env: Env, c: Chain)
    requires env.period > 0 && c.Block? && LinkedHere(c.info, c.prev) && c.info.height % env.period > 0
    requires c.info.kind.Primary? || c.info.kind.Subsidiary? || c.info.kind.Extended?
    ensures c.prev.Block? && c.prev.info.origin == c.info.origin
    ensures PeriodEnd(c, env.period) == PeriodEnd(c.prev, env.period)
    ensures BatchIndex(c, env.period) == BatchIndex(c.prev, env.period) + 1
  {
    ModStep(c.info.height, env.period);
  }

  lemma {:induction false} PrimaryFork(env: Env, c: Chain)
    requires env.period > 0 && Accepted(env, c) && c.Block? && IsPrimary(c.info.kind)
    ensures PeriodEnd(c, env.period).Block? && PeriodEnd(c, env.period).info.origin == c.info.origin
    ensures IsPrimary(PeriodEnd(c, env.period).info.kind)
  {
    if c.info.height % env.period > 0 {
      PrimaryFork(env, c.prev);
    }
  }

  lemma {:induction false} PrimaryBlocksSince(env: Env, c: Chain)
    requires env.period > 0 && Accepted(env, c) && c.Block? && IsPrimary(c.info.kind)
    ensures BlocksSince(c, env.period) == c.info.height % env.period
  {
    if c.info.height % env.period > 0 {
      ModStep(c.info.height, env.period);
      PrimaryBlocksSince(env, c.prev);
    }
  }

  lemma BeforeExempt(env: Env, c: Chain, kind: Kind, height: nat)
    requires env.period > 0 && c.Block? && LinkedHere(c.info, c.prev) && c.info.height % env.period > 0
    requires c.info.kind.Primary? || c.info.kind.Subsidiary? || c.info.kind.Extended?
    requires !Exempt(env.period, c.info.height, kind, height)
    ensures !Exempt(env.period, c.prev.info.height, c.info.kind, c.info.height)
  {
    if c.info.height == env.period {
      DivUnique(c.info.height, env.period, 1, 0);
    }
  }

  /** The shortcut is right after every block that is not vacant: nothing is due any more. */
  lemma ShortcutExact(env: Env, c: Chain, kind: Kind, height: nat)
    requires Lawful(env) && Accepted(env, c) && c.Block? && Exact(env, c)
    requires !c.info.kind.Vacant? && EarlyExit(c, env.period)
    ensures Due(env, c, kind, height) == []
  {
    if c.info.kind.Origin? {
      PrimaryFork(env, c.prev);
    } else if !Exempt(env.period, c.info.height, kind, height) && Running(env, c) {
      IndexStep(env, c);
      BeforeExempt(env, c, kind, height);
      assert c.info.rewardTxs == [];
      assert Slot(BatchesOf(env, c.prev), BatchIndex(c.prev, env.period)) == [];
    }
  }

  // ----- exactness over whole chains

  /** Something is due exactly when the next block is not exempt and the running period has batches left. */
  lemma DueIff(env: Env, c: Chain, kind: Kind, height: nat)
    requires Lawful(env)
    ensures Due(env, c, kind, height) != [] <==>
              && c.Block? && !Exempt(env.period, c.info.height, kind, height)
              && Running(env, c) && BatchIndex(c, env.period) < |BatchesOf(env, c)|
  {
  }

  /** After a vacant block the shortcut is taken exactly when the block is late in its period. */
  lemma VacantShortcut(env: Env, c: Chain)
    requires env.period > 0 && c.Block? && c.info.kind.Vacant? && LinkedHere(c.info, c.prev)
             && CountedHere(c.info, c.prev)
    ensures EarlyExit(c, env.period) <==> c.info.height % env.period > 5
  {
  }

  /** `c` is a vacant block late in a running period that still has batches, and the next block is not exempt. */
  ghost predicate DropsBatches(env: Env, c: Chain, kind: Kind, height: nat)
    requires env.period > 0
  {
    && c.Block? && c.info.kind.Vacant? && c.info.height % env.period > EARLY_EXIT_OFFSET
    && !Exempt(env.period, c.info.height, kind, height)
    && Running(env, c) && BatchIndex(c, env.period) < |BatchesOf(env, c)|
  }

  ghost predicate NothingDropped(env: Env, c: Chain)
    requires env.period > 0
  {
    c.Null? || (NothingDropped(env, c.prev) && !DropsBatches(env, c.prev, c.info.kind, c.info.height))
  }

  ghost predicate AllExact(env: Env, c: Chain)
    requires env.period > 0
  {
    c.Null? || (AllExact(env, c.prev) && Exact(env, c))
  }

  /** Every block of an accepted chain carries what is due, exactly when no vacant block dropped batches. */
  lemma {:induction false} ExactIff(env: Env, c: Chain)
    requires Lawful(env) && Accepted(env, c)
    ensures AllExact(env, c) <==> NothingDropped(env, c)
  {
    if c.Block? {
      ExactIff(env, c.prev);
      if c.prev.Block? && !c.info.kind.Origin? && AllExact(env, c.prev) {
        DueIff(env, c.prev, c.info.kind, c.info.height);
        if c.prev.info.kind.Vacant? {
          VacantShortcut(env, c.prev);
        }
        if !EarlyExit(c.prev, env.period) {
          SlowPathExact(env, c.prev, c.info.kind, c.info.height, c.info.rewardTxs);
        } else if !c.prev.info.kind.Vacant? {
          ShortcutExact(env, c.prev, c.info.kind, c.info.height);
        }
      }
    }
  }

  /** No vacant block lies past the threshold of its period. */
  ghost predicate NoLateVacant(env: Env, c: Chain)
    requires env.period > 0
  {
    c.Block? ==>
      && NoLateVacant(env, c.prev)
      && (c.info.kind.Vacant? ==> c.info.height % env.period <= EARLY_EXIT_OFFSET)
  }

  /** Without late vacant blocks every block carries what is due, whatever the shortcut and the cache do. */
  lemma NoLateVacantExact(env: Env, c: Chain)
    requires Lawful(env) && Accepted(env, c) && NoLateVacant(env, c)
    ensures AllExact(env, c)
  {
    NoLateVacantDrops(env, c);
    ExactIff(env, c);
  }

  lemma {:induction false} NoLateVacantDrops(env: Env, c: Chain)
    requires env.period > 0 && NoLateVacant(env, c)
    ensures NothingDropped(env, c)
  {
    if c.Block? {
      NoLateVacantDrops(env, c.prev);
    }
  }

  /** A primary chain has no vacant blocks, so it is always exact. */
  lemma {:induction false} PrimaryExact(env: Env, c: Chain)
    requires Lawful(env) && Accepted(env, c) && (c.Block? ==> IsPrimary(c.info.kind))
    ensures AllExact(env, c)
  {
    PrimaryDropsNothing(env, c);
    ExactIff(env, c);
  }

  lemma {:induction false} PrimaryDropsNothing(env: Env, c: Chain)
    requires env.period > 0 && Accepted(env, c) && (c.Block? ==> IsPrimary(c.info.kind))
    ensures NothingDropped(env, c)
  {
    if c.Block? {
      PrimaryDropsNothing(env, c.prev);
    }
  }

  // ----- what a period delivers

  /** The reward transactions of the running period so far, oldest block first. */
  ghost function Delivered(c: Chain, period: nat): seq<RewardTx>
    requires period > 0
  {
    if c.Null? || c.info.height % period == 0 then [] else Delivered(c.prev, period) + c.info.rewardTxs
  }

  /** The first `n` batches, or all of them. */
  ghost function FirstBatches(list: seq<seq<RewardTx>>, n: nat): seq<seq<RewardTx>>
  {
    if n <= |list| then list[..n] else list
  }

  lemma {:induction false} FlattenSnoc(list: seq<seq<RewardTx>>, last: seq<RewardTx>)
    ensures Flatten(list + [last]) == Flatten(list) + last
  {
    if list == [] {
      assert list + [last] == [last];
    } else {
      FlattenSnoc(list[1..], last);
      assert (list + [last])[1..] == list[1..] + [last];
    }
  }

  lemma NextBatch(list: seq<seq<RewardTx>>, n: nat)
    ensures Flatten(FirstBatches(list, n + 1)) == Flatten(FirstBatches(list, n)) + Slot(list, n)
  {
    if n < |list| {
      assert list[..n + 1] == list[..n] + [list[n]];
      FlattenSnoc(list[..n], list[n]);
    } else {
      assert FirstBatches(list, n) == FirstBatches(list, n + 1);
    }
  }

  /** In every period after the first, the blocks so far carried the first batches: each once, in order, no others. */
  lemma {:induction false} DeliveredExactly(env: Env, c: Chain)
    requires Lawful(env) && Accepted(env, c) && AllExact(env, c) && Running(env, c)
    requires PeriodEnd(c, env.period).info.height >= env.period
    ensures SamePayList(Delivered(c, env.period), Flatten(FirstBatches(BatchesOf(env, c), BlocksSince(c, env.period))))
  {
    if c.info.height % env.period == 0 {
      assert FirstBatches(BatchesOf(env, c), 0) == [];
    } else {
      NotAcrossForks(env, c);
      DeliveredExactly(env, c.prev);
      DeliveredStep(env, c);
    }
  }

  lemma NotAcrossForks(env: Env, c: Chain)
    requires env.period > 0 && Accepted(env, c) && Running(env, c) && c.info.height % env.period > 0
    ensures c.prev.Block? && c.prev.info.origin == c.info.origin && Running(env, c.prev)
            && BatchesOf(env, c.prev) == BatchesOf(env, c)
  {
    if c.info.kind.Origin? {
      PrimaryFork(env, c.prev);
    }
  }

  lemma DeliveredStep(env: Env, c: Chain)
    requires Lawful(env) && Accepted(env, c) && Running(env, c) && Exact(env, c)
    requires c.info.height % env.period > 0 && PeriodEnd(c, env.period).info.height >= env.period
    requires c.prev.Block? && Running(env, c.prev) && BatchesOf(env, c.prev) == BatchesOf(env, c)
             && c.prev.info.origin == c.info.origin
    requires SamePayList(Delivered(c.prev, env.period),
                         Flatten(FirstBatches(BatchesOf(env, c), BlocksSince(c.prev, env.period))))
    ensures SamePayList(Delivered(c, env.period), Flatten(FirstBatches(BatchesOf(env, c), BlocksSince(c, env.period))))
  {
    var list, n := BatchesOf(env, c), BlocksSince(c.prev, env.period);
    EndBelow(env, c.prev);
    if !c.info.kind.Vacant? {
      if IsPrimary(c.prev.info.kind) {
        PrimaryBlocksSince(env, c.prev);
      }
      assert Due(env, c.prev, c.info.kind, c.info.height) == Slot(list, n);
      NextBatch(list, n);
      ConcatSamePay(Delivered(c.prev, env.period), Flatten(FirstBatches(list, n)), c.info.rewardTxs, Slot(list, n));
    }
  }

  lemma ConcatSamePay(a: seq<RewardTx>, b: seq<RewardTx>, x: seq<RewardTx>, y: seq<RewardTx>)
    requires SamePayList(a, b) && SamePayList(x, y)
    ensures SamePayList(a + x, b + y)
  {
  }

  /** Heights never fall along a chain. */
  lemma {:induction false} EndBelow(env: Env, c: Chain)
    requires env.period > 0 && Accepted(env, c) && c.Block? && PeriodEnd(c, env.period).Block?
    ensures PeriodEnd(c, env.period).info.height <= c.info.height
  {
    if c.info.height % env.period > 0 {
      EndBelow(env, c.prev);
    }
  }

  /** On an accepted primary chain the batches of every running period after the first could be computed. */
  lemma {:induction false} PrimaryRunning(env: Env, c: Chain)
    requires Lawful(env) && Accepted(env, c) && c.Block? && IsPrimary(c.info.kind)
    requires c.info.height > env.period && c.info.height % env.period > 0
    ensures Running(env, c) && PeriodEnd(c, env.period).info.height >= env.period
  {
    ModStep(c.info.height, env.period);
    if c.info.height % env.period == 1 {
      SlowPathExact(env, c.prev, c.info.kind, c.info.height, c.info.rewardTxs);
    } else {
      if c.prev.info.height == env.period {
        DivUnique(c.prev.info.height, env.period, 1, 0);
      }
      PrimaryRunning(env, c.prev);
    }
  }

  lemma {:induction false} SumSamePay(a: seq<RewardTx>, b: seq<RewardTx>)
    requires SamePayList(a, b)
    ensures SumTx(a) == SumTx(b)
  {
    if a != [] {
      SumSamePay(a[..|a| - 1], b[..|b| - 1]);
    }
  }

  lemma {:induction false} FlattenGrows(list: seq<seq<RewardTx>>, n: nat)
    requires n <= |list| && forall b :: 0 <= b < |list| ==> list[b] != []
    ensures |Flatten(list[..n])| + (|list| - n) <= |Flatten(list)|
    decreases |list| - n
  {
    if n == |list| {
      assert list[..n] == list;
    } else {
      FlattenGrows(list, n + 1);
      NextBatch(list, n);
    }
  }

  /** When a primary period closes, all its batches are paid exactly when they fit in its blocks but the last. */
  lemma PeriodDelivered(env: Env, c: Chain)
    requires Lawful(env) && Accepted(env, c) && c.Block? && IsPrimary(c.info.kind)
    requires env.period > 1 && c.info.height > env.period && c.info.height % env.period == env.period - 1
    ensures Running(env, c)
    ensures SamePayList(Delivered(c, env.period), Flatten(FirstBatches(BatchesOf(env, c), env.period - 1)))
    ensures SamePayList(Delivered(c, env.period), Flatten(BatchesOf(env, c))) <==> |BatchesOf(env, c)| <= env.period - 1
  {
    PrimaryRunning(env, c);
    PrimaryExact(env, c);
    DeliveredExactly(env, c);
    PrimaryBlocksSince(env, c);
    var list := BatchesOf(env, c);
    if |list| > env.period - 1 {
      FlattenGrows(list, env.period - 1);
    } else {
      assert FirstBatches(list, env.period - 1) == list;
    }
  }

  /** The block that closes a period carries no reward transaction, nor does any block of the first period. */
  lemma ClosingBlockEmpty(env: Env, c: Chain)
    requires env.period > 0 && Accepted(env, c) && c.Block?
             && (c.info.height % env.period == 0 || c.info.height < env.period)
    ensures c.info.rewardTxs == []
  {
  }

  // ----- with the batches of CalcEndVoteReward

  /** The answers of `CalcEndVoteReward` for given reward data and address contexts. */
  ghost function EnvOf(period: nat, inputOf: Hash -> Option<CalcInput>, contextOf: Hash -> Option<PrevContext>): Env
  {
    Env(period, (h: Hash, p: Hash) =>
      if inputOf(h).Some? && contextOf(p).Some? && Succeeds(inputOf(h).value, contextOf(p).value)
      then Some(RewardList(inputOf(h).value, contextOf(p).value)) else None)
  }

  lemma EnvOfLawful(period: nat, inputOf: Hash -> Option<CalcInput>, contextOf: Hash -> Option<PrevContext>)
    requires period > 0
    ensures Lawful(EnvOf(period, inputOf, contextOf))
  {
    var env := EnvOf(period, inputOf, contextOf);
    forall h, p, q | env.compute(h, p).Some? && env.compute(h, q).Some?
      ensures SamePays(env.compute(h, p).value, env.compute(h, q).value)
    {
      RecomputeAgrees(inputOf(h).value, contextOf(p).value, contextOf(q).value);
    }
    forall h, p, b | env.compute(h, p).Some? && 0 <= b < |env.compute(h, p).value|
      ensures env.compute(h, p).value[b] != []
    {
      BatchesFull(inputOf(h).value, contextOf(p).value);
    }
  }

  lemma {:induction false} FlattenSplit(list: seq<seq<RewardTx>>, n: nat)
    requires n <= |list|
    ensures Flatten(list) == Flatten(list[..n]) + Flatten(list[n..])
  {
    if n == 0 {
      assert list[..n] == [] && list[n..] == list;
    } else {
      FlattenSplit(list[1..], n - 1);
      assert list[1..][..n - 1] == list[..n][1..] && list[1..][n - 1..] == list[n..];
    }
  }

  lemma FirstBatchesPay(list: seq<seq<RewardTx>>, n: nat)
    ensures SumTx(Flatten(FirstBatches(list, n))) <= SumTx(Flatten(list))
  {
    if n <= |list| {
      FlattenSplit(list, n);
      SumTxConcat(Flatten(list[..n]), Flatten(list[n..]));
    }
  }

  /**
   * Wherever a fork that dropped nothing stands in its period, it has paid out no more than the reward table of the
   * period before, and all of it once it has had as many paying blocks as there are batches.
   */
  lemma RunningPaysTable(period: nat, inputOf: Hash -> Option<CalcInput>, contextOf: Hash -> Option<PrevContext>,
                         c: Chain)
    requires period > 0 && Accepted(EnvOf(period, inputOf, contextOf), c)
    requires NothingDropped(EnvOf(period, inputOf, contextOf), c) && Running(EnvOf(period, inputOf, contextOf), c)
    requires PeriodEnd(c, period).info.height >= period
    ensures inputOf(PeriodEnd(c, period).info.hash).Some?
    ensures SumTx(Delivered(c, period)) <= Paid(inputOf(PeriodEnd(c, period).info.hash).value.rewards)
    ensures |BatchesOf(EnvOf(period, inputOf, contextOf), c)| <= BlocksSince(c, period) ==>
              SumTx(Delivered(c, period)) == Paid(inputOf(PeriodEnd(c, period).info.hash).value.rewards)
  {
    var env := EnvOf(period, inputOf, contextOf);
    EnvOfLawful(period, inputOf, contextOf);
    ExactIff(env, c);
    DeliveredExactly(env, c);
    var list, h, n := BatchesOf(env, c), PeriodEnd(c, period).info.hash, BlocksSince(c, period);
    var p :| env.compute(h, p) == Some(list);
    BatchesPayTable(inputOf(h).value, contextOf(p).value);
    SumSamePay(Delivered(c, period), Flatten(FirstBatches(list, n)));
    FirstBatchesPay(list, n);
    assert |list| <= n ==> FirstBatches(list, n) == list;
  }

  /** A primary chain drops nothing, and where its period closes the paying blocks are all but one. */
  lemma PrimaryPeriod(env: Env, c: Chain)
    requires Lawful(env) && Accepted(env, c) && c.Block? && IsPrimary(c.info.kind)
    requires env.period > 1 && c.info.height > env.period && c.info.height % env.period == env.period - 1
    ensures NothingDropped(env, c) && Running(env, c) && PeriodEnd(c, env.period).info.height >= env.period
    ensures BlocksSince(c, env.period) == env.period - 1
  {
    PrimaryDropsNothing(env, c);
    PrimaryRunning(env, c);
    PrimaryBlocksSince(env, c);
  }
}
