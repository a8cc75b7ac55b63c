/** What the reward transactions of a period pay to whom, said from the reward table and the accounts alone. */
module RewardPayments {
  import opened Common
  import opened VoteReward
  import opened RewardBatches

  /** One of the three addresses whose rewards go to the function address that stands for it. */
  ghost predicate IsFixed(acc: Accounts, d: Dest)
  {
    d == acc.surplus || d == acc.project || d == acc.foundation
  }

  /** The entry is paid to `f`: directly, or as the function address of a fixed one. */
  ghost predicate GoesTo(inp: CalcInput, e: Entry, f: Dest)
  {
    if IsFixed(inp.acc, e.rewardTo) then e.rewardTo in inp.functions && inp.functions[e.rewardTo] == f
    else e.rewardTo == f
  }

  ghost function EntriesFor(inp: CalcInput, f: Dest): map<Dest, nat>
  {
    map k | k in inp.rewards && GoesTo(inp, inp.rewards[k], f) :: inp.rewards[k].amount
  }

  /** What the transactions pay to `f`. */
  ghost function PaidTo(txs: seq<RewardTx>, f: Dest): nat
  {
    if txs == [] then 0 else
      PaidTo(txs[..|txs| - 1], f) + if txs[|txs| - 1].to == f then txs[|txs| - 1].amount else 0
  }

  lemma {:induction false} PaidOnce(txs: seq<RewardTx>, i: nat)
    requires i < |txs| && forall a, b :: 0 <= a < b < |txs| ==> txs[a].to != txs[b].to
    ensures PaidTo(txs, txs[i].to) == txs[i].amount
  {
    var n := |txs| - 1;
    if i == n {
      PaidNever(txs[..n], txs[i].to);
    } else {
      PaidOnce(txs[..n], i);
    }
  }

  lemma {:induction false} PaidNever(txs: seq<RewardTx>, f: Dest)
    requires forall i :: 0 <= i < |txs| ==> txs[i].to != f
    ensures PaidTo(txs, f) == 0
  {
    if txs != [] {
      PaidNever(txs[..|txs| - 1], f);
    }
  }

  lemma TargetIff(inp: CalcInput, e: Entry, f: Dest)
    requires Resolvable(inp, e)
    ensures Target(inp, e) == f <==> GoesTo(inp, e, f)
  {
  }

  lemma ClaimsAre(inp: CalcInput, keys: seq<Dest>, f: Dest)
    requires AllResolvable(inp) && forall k :: k in keys <==> k in inp.rewards
    ensures Claims(inp, keys, f) == EntriesFor(inp, f)
  {
    forall k | k in inp.rewards ensures Target(inp, inp.rewards[k]) == f <==> GoesTo(inp, inp.rewards[k], f) {
      TargetIff(inp, inp.rewards[k], f);
    }
  }

  lemma {:induction false} GroupedIff(inp: CalcInput, keys: seq<Dest>, f: Dest)
    requires forall k :: k in keys ==> k in inp.rewards && Resolvable(inp, inp.rewards[k])
    ensures f in Group(inp, keys) <==> exists k :: k in keys && GoesTo(inp, inp.rewards[k], f)
  {
    if keys != [] {
      var n := |keys| - 1;
      GroupedIff(inp, keys[..n], f);
      assert forall k :: k in keys <==> k in keys[..n] || k == keys[n];
    }
  }

  /** An address is a recipient exactly when some entry goes to it. */
  lemma RecipientIff(inp: CalcInput, f: Dest)
    requires AllResolvable(inp)
    ensures f in Recipients(inp) <==> exists k :: k in inp.rewards && GoesTo(inp, inp.rewards[k], f)
  {
    GroupedIff(inp, Ascending(inp.rewards.Keys), f);
  }

  lemma OrderedTxs(txs: seq<RewardTx>, order: seq<Dest>)
    requires StrictlyAscending(order) && |txs| == |order| && forall i :: 0 <= i < |txs| ==> txs[i].to == order[i]
    ensures forall a, b :: 0 <= a < b < |txs| ==> txs[a].to != txs[b].to
    ensures forall f :: f in order <==> exists i :: 0 <= i < |txs| && txs[i].to == f
  {
    forall f | f in order ensures exists i :: 0 <= i < |txs| && txs[i].to == f {
      var i :| 0 <= i < |order| && order[i] == f;
      assert txs[i].to == f;
    }
  }

  lemma DistinctRecipients(inp: CalcInput, prev: PrevContext, txs: seq<RewardTx>)
    requires Succeeds(inp, prev) && txs == AllTxs(inp, prev)
    ensures forall a, b :: 0 <= a < b < |txs| ==> txs[a].to != txs[b].to
    ensures forall f :: f in Recipients(inp) <==> exists i :: 0 <= i < |txs| && txs[i].to == f
  {
    OrderedTxs(txs, Ascending(Recipients(inp).Keys));
  }

  /** The amount paid to any address is the sum of the entries that go to it. */
  lemma PaidExact(inp: CalcInput, prev: PrevContext, f: Dest)
    requires Succeeds(inp, prev)
    ensures PaidTo(Flatten(RewardList(inp, prev)), f) == Total(EntriesFor(inp, f))
  {
    BatchesPartition(inp, prev);
    DistinctRecipients(inp, prev, AllTxs(inp, prev));
    ClaimsAre(inp, Ascending(inp.rewards.Keys), f);
    if f in Recipients(inp) {
      var i :| 0 <= i < |AllTxs(inp, prev)| && AllTxs(inp, prev)[i].to == f;
      PaidOnce(AllTxs(inp, prev), i);
      BatchAmounts(inp, prev, i);
    } else {
      PaidNever(AllTxs(inp, prev), f);
      RecipientIff(inp, f);
      assert EntriesFor(inp, f) == map[];
    }
  }

  /** A fixed address is itself paid only if it is the function address of a fixed one. */
  lemma FixedNotPaid(inp: CalcInput, prev: PrevContext, i: nat)
    requires Succeeds(inp, prev) && i < |Flatten(RewardList(inp, prev))|
    requires IsFixed(inp.acc, Flatten(RewardList(inp, prev))[i].to)
    ensures exists t :: t in inp.functions && IsFixed(inp.acc, t)
                        && inp.functions[t] == Flatten(RewardList(inp, prev))[i].to
  {
    var f := Flatten(RewardList(inp, prev))[i].to;
    BatchesPartition(inp, prev);
    DistinctRecipients(inp, prev, AllTxs(inp, prev));
    RecipientIff(inp, f);
    var k :| k in inp.rewards && GoesTo(inp, inp.rewards[k], f);
    assert inp.rewards[k].rewardTo in inp.functions;
  }

  // ----- recipients that are paid for another address

  /** The highest address whose entry goes to `f`. */
  ghost predicate LastFor(inp: CalcInput, f: Dest, k: Dest)
  {
    && k in inp.rewards && GoesTo(inp, inp.rewards[k], f)
    && forall j :: j in inp.rewards && GoesTo(inp, inp.rewards[j], f) ==> j <= k
  }

  /** The entry is a vote whose reward goes to another address than the voter's. */
  ghost predicate Indirect(inp: CalcInput, k: Dest)
    requires k in inp.rewards
  {
    !IsFixed(inp.acc, inp.rewards[k].rewardTo) && inp.rewards[k].rewardTo != k
  }

  lemma {:induction false} GroupFlag(inp: CalcInput, keys: seq<Dest>, f: Dest, k: Dest)
    requires StrictlyAscending(keys) && forall j :: j in keys ==> j in inp.rewards && Resolvable(inp, inp.rewards[j])
    requires k in keys && GoesTo(inp, inp.rewards[k], f)
    requires forall j :: j in keys && GoesTo(inp, inp.rewards[j], f) ==> j <= k
    ensures f in Group(inp, keys) && Group(inp, keys)[f].noVote == Indirect(inp, k)
  {
    var last := keys[|keys| - 1];
    AscendingLast(keys);
    TargetIff(inp, inp.rewards[last], f);
    if last != k {
      assert keys[..|keys| - 1] + [last] == keys;
      GroupFlag(inp, keys[..|keys| - 1], f, k);
      assert last > k by {
        var i :| 0 <= i < |keys| && keys[i] == k;
      }
    }
  }

  /** Whether a recipient counts as paid for another address is decided by the last entry that goes to it. */
  lemma FlagIs(inp: CalcInput, f: Dest, k: Dest)
    requires AllResolvable(inp) && LastFor(inp, f, k)
    ensures f in Recipients(inp) && Recipients(inp)[f].noVote == Indirect(inp, k)
  {
    GroupFlag(inp, Ascending(inp.rewards.Keys), f, k);
  }

  lemma LastExists(inp: CalcInput, f: Dest) returns (k: Dest)
    requires exists j :: j in inp.rewards && GoesTo(inp, inp.rewards[j], f)
    ensures LastFor(inp, f, k)
  {
    var s := set j | j in inp.rewards && GoesTo(inp, inp.rewards[j], f);
    var j :| j in inp.rewards && GoesTo(inp, inp.rewards[j], f);
    assert j in s;
    k := MaxOf(s);
    forall i | i in inp.rewards && GoesTo(inp, inp.rewards[i], f) ensures i <= k {
      assert i in s;
    }
  }

  lemma {:induction false} MaxOf(s: set<Dest>) returns (k: Dest)
    requires s != {}
    ensures k in s && forall j :: j in s ==> j <= k
    decreases |s|
  {
    k :| k in s;
    var rest := s - {k};
    forall j | j in s ensures j == k || j in rest { }
    if rest != {} {
      var m := MaxOf(rest);
      k := if m <= k then k else m;
    }
  }

  /** The recipient's address may be paid: before branch 002 if it is indirect, else if the address is known. */
  ghost predicate MayPay(inp: CalcInput, prev: PrevContext, f: Dest, k: Dest)
    requires k in inp.rewards
  {
    if Indirect(inp, k) then !inp.branch002 else f in prev.known || (!prev.primary && f in prev.refKnown)
  }

  /**
   * `CalcEndVoteReward` succeeds exactly when every fixed address in the table has its function address, a batch has
   * room, and every recipient may be paid.
   */
  lemma SucceedsIff(inp: CalcInput, prev: PrevContext)
    ensures Succeeds(inp, prev) <==>
              && (forall k :: k in inp.rewards && IsFixed(inp.acc, inp.rewards[k].rewardTo) ==>
                                inp.rewards[k].rewardTo in inp.functions)
              && (inp.rewards == map[] || inp.perBlock > 0)
              && (forall f, k :: LastFor(inp, f, k) ==> MayPay(inp, prev, f, k))
  {
    if AllResolvable(inp) {
      RecipientsEmptyIff(inp);
      forall f, k | LastFor(inp, f, k)
        ensures f in Recipients(inp) && (Payable(inp, prev, f, Recipients(inp)[f]) <==> MayPay(inp, prev, f, k))
      {
        FlagIs(inp, f, k);
      }
      forall f | f in Recipients(inp) ensures exists k :: LastFor(inp, f, k) {
        RecipientIff(inp, f);
        var k := LastExists(inp, f);
      }
    }
  }

  lemma RecipientsEmptyIff(inp: CalcInput)
    requires AllResolvable(inp)
    ensures Recipients(inp) == map[] <==> inp.rewards == map[]
  {
    if inp.rewards != map[] {
      var k :| k in inp.rewards;
      RecipientIff(inp, Target(inp, inp.rewards[k]));
      TargetIff(inp, inp.rewards[k], Target(inp, inp.rewards[k]));
    } else {
      forall f ensures f !in Recipients(inp) {
        RecipientIff(inp, f);
      }
    }
  }

  /** The chain id and the address data of a transaction. */
  lemma TxFields(inp: CalcInput, prev: PrevContext, i: nat, k: Dest)
    requires Succeeds(inp, prev) && i < |AllTxs(inp, prev)| && LastFor(inp, AllTxs(inp, prev)[i].to, k)
    ensures var tx := AllTxs(inp, prev)[i];
            && tx.chainId == inp.chainId
            && tx.toData == if tx.to in prev.known then NoData
                            else if Indirect(inp, k) then PubkeyData
                            else if tx.to in prev.refKnown then RefData(prev.refKnown[tx.to])
                            else NoData
  {
    FlagIs(inp, AllTxs(inp, prev)[i].to, k);
  }
}
