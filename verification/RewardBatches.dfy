/** Turning a period's reward table into per-block batches of reward transactions (`CalcEndVoteReward`). */
module RewardBatches {
  import opened Common
  import opened VoteReward

  const TWO_32: nat := 0x1_0000_0000

  /** A recipient's amount; `noVote` says that the last entry paid to it came from another address. */
  datatype Recipient = Recipient(amount: nat, noVote: bool)

  /** The address context a reward transaction carries. */
  datatype ToData = NoData | PubkeyData | RefData(context: nat)

  /** A TX_VOTE_REWARD transaction. */
  datatype RewardTx = RewardTx(chainId: nat, nonce: nat, to: Dest, amount: nat, toData: ToData)

  /**
   * What depends on the period's last block only: the reward table, the fixed addresses with their current function
   * addresses, the chain id, that block's height, whether its height is past branch 002, and the batch size.
   */
  datatype CalcInput = CalcInput(rewards: RewardMap, acc: Accounts, functions: map<Dest, Dest>,
                                 chainId: nat, height: nat, branch002: bool, perBlock: nat)

  /**
   * What depends on the block being extended: the addresses known on the fork and, for a sub-fork, on the primary
   * chain.
   */
  datatype PrevContext = PrevContext(primary: bool, known: set<Dest>, refKnown: map<Dest, nat>)

  predicate Special(acc: Accounts, d: Dest)
  {
    d == acc.surplus || d == acc.project || d == acc.foundation
  }

  predicate Resolvable(inp: CalcInput, e: Entry)
  {
    Special(inp.acc, e.rewardTo) ==> e.rewardTo in inp.functions
  }

  /** Where an entry is paid, after the fixed addresses are replaced. */
  function Target(inp: CalcInput, e: Entry): Dest
    requires Resolvable(inp, e)
  {
    if Special(inp.acc, e.rewardTo) then inp.functions[e.rewardTo] else e.rewardTo
  }

  ghost predicate AllResolvable(inp: CalcInput)
  {
    forall k :: k in inp.rewards ==> Resolvable(inp, inp.rewards[k])
  }

  // ----- one amount per recipient

  function AmountTo(g: map<Dest, Recipient>, d: Dest): nat
  {
    if d in g then g[d].amount else 0
  }

  /** The entry of `k` added to its recipient. */
  ghost function Raised(inp: CalcInput, g: map<Dest, Recipient>, k: Dest): map<Dest, Recipient>
    requires k in inp.rewards && Resolvable(inp, inp.rewards[k])
  {
    var e := inp.rewards[k];
    var to := Target(inp, e);
    g[to := Recipient(AmountTo(g, to) + e.amount, !Special(inp.acc, e.rewardTo) && k != e.rewardTo)]
  }

  ghost function Group(inp: CalcInput, keys: seq<Dest>): map<Dest, Recipient>
    requires forall k :: k in keys ==> k in inp.rewards && Resolvable(inp, inp.rewards[k])
  {
    if keys == [] then map[] else Raised(inp, Group(inp, keys[..|keys| - 1]), keys[|keys| - 1])
  }

  ghost function Recipients(inp: CalcInput): map<Dest, Recipient>
    requires AllResolvable(inp)
  {
    Group(inp, Ascending(inp.rewards.Keys))
  }

  /** The entries that are paid to `d`. */
  ghost function Claims(inp: CalcInput, keys: seq<Dest>, d: Dest): map<Dest, nat>
    requires forall k :: k in keys ==> k in inp.rewards && Resolvable(inp, inp.rewards[k])
  {
    map k | k in keys && Target(inp, inp.rewards[k]) == d :: inp.rewards[k].amount
  }

  lemma ClaimsStep(inp: CalcInput, keys: seq<Dest>, d: Dest)
    requires StrictlyAscending(keys) && keys != []
    requires forall k :: k in keys ==> k in inp.rewards && Resolvable(inp, inp.rewards[k])
    ensures var k, before := keys[|keys| - 1], Claims(inp, keys[..|keys| - 1], d);
            Total(Claims(inp, keys, d)) ==
            Total(before) + if Target(inp, inp.rewards[k]) == d then inp.rewards[k].amount else 0
  {
    var n := |keys| - 1;
    var k := keys[n];
    AscendingLast(keys);
    if Target(inp, inp.rewards[k]) == d {
      assert Claims(inp, keys, d) == Claims(inp, keys[..n], d)[k := inp.rewards[k].amount];
      TotalUpdate(Claims(inp, keys[..n], d), k, inp.rewards[k].amount);
    } else {
      assert Claims(inp, keys, d) == Claims(inp, keys[..n], d);
    }
  }

  /** A recipient gets exactly the entries that are paid to it. */
  lemma {:induction false} GroupAt(inp: CalcInput, keys: seq<Dest>, d: Dest)
    requires StrictlyAscending(keys) && forall k :: k in keys ==> k in inp.rewards && Resolvable(inp, inp.rewards[k])
    ensures AmountTo(Group(inp, keys), d) == Total(Claims(inp, keys, d))
  {
    if keys == [] {
      assert Claims(inp, keys, d) == map[];
    } else {
      AscendingLast(keys);
      GroupAt(inp, keys[..|keys| - 1], d);
      ClaimsStep(inp, keys, d);
    }
  }

  ghost function RecipientAmounts(g: map<Dest, Recipient>): map<Dest, nat>
  {
    map d | d in g :: g[d].amount
  }

  lemma {:induction false} GroupTotal(inp: CalcInput, keys: seq<Dest>)
    requires forall k :: k in keys ==> k in inp.rewards && Resolvable(inp, inp.rewards[k])
    ensures Total(RecipientAmounts(Group(inp, keys))) == SumAt(Amounts(inp.rewards), keys)
  {
    if keys == [] {
      assert RecipientAmounts(Group(inp, keys)) == map[];
    } else {
      var n := |keys| - 1;
      GroupTotal(inp, keys[..n]);
      var before := Group(inp, keys[..n]);
      var e := inp.rewards[keys[n]];
      var t := Target(inp, e);
      AmountsRaised(before, Group(inp, keys), t, e.amount);
    }
  }

  lemma AmountsRaised(before: map<Dest, Recipient>, after: map<Dest, Recipient>, t: Dest, amount: nat)
    requires after.Keys == before.Keys + {t} && after[t].amount == AmountTo(before, t) + amount
    requires forall d :: d in before && d != t ==> after[d] == before[d]
    ensures Total(RecipientAmounts(after)) == Total(RecipientAmounts(before)) + amount
  {
    assert RecipientAmounts(after) == RecipientAmounts(before)[t := AmountTo(before, t) + amount];
    TotalUpdate(RecipientAmounts(before), t, AmountTo(before, t) + amount);
  }

  /** Replacing the fixed addresses and merging entries moves no money. */
  lemma RecipientsTotal(inp: CalcInput)
    requires AllResolvable(inp)
    ensures Total(RecipientAmounts(Recipients(inp))) == Paid(inp.rewards)
  {
    var keys := Ascending(inp.rewards.Keys);
    GroupTotal(inp, keys);
    assert Amounts(inp.rewards).Keys == inp.rewards.Keys;
    AscendingTotal(Amounts(inp.rewards), keys);
  }

  /** There is no more than one recipient per entry. */
  lemma {:induction false} GroupSize(inp: CalcInput, keys: seq<Dest>)
    requires forall k :: k in keys ==> k in inp.rewards && Resolvable(inp, inp.rewards[k])
    ensures |Group(inp, keys)| <= |keys|
  {
    if keys != [] {
      GroupSize(inp, keys[..|keys| - 1]);
      var before := Group(inp, keys[..|keys| - 1]);
      var t := Target(inp, inp.rewards[keys[|keys| - 1]]);
      assert Group(inp, keys).Keys == before.Keys + {t};
    }
  }

  // ----- the transactions

  /** The recipient's address is known where the source requires it to be. */
  predicate Payable(inp: CalcInput, prev: PrevContext, d: Dest, r: Recipient)
  {
    if r.noVote then !inp.branch002 else d in prev.known || (!prev.primary && d in prev.refKnown)
  }

  function DataFor(prev: PrevContext, d: Dest, r: Recipient): ToData
  {
    if d in prev.known then NoData
    else if r.noVote then PubkeyData
    else if d in prev.refKnown then RefData(prev.refKnown[d])
    else NoData
  }

  /** Transaction number `i`; its nonce holds the height in the high and `i` in the low 32 bits. */
  function MakeTx(inp: CalcInput, prev: PrevContext, i: nat, d: Dest, r: Recipient): RewardTx
  {
    RewardTx(inp.chainId, inp.height * TWO_32 + i, d, r.amount, DataFor(prev, d, r))
  }

  ghost function TxList(inp: CalcInput, prev: PrevContext, g: map<Dest, Recipient>,
                        order: seq<Dest>): (txs: seq<RewardTx>)
    requires forall d :: d in order ==> d in g
    ensures |txs| == |order|
    ensures forall i :: 0 <= i < |order| ==> txs[i] == MakeTx(inp, prev, i, order[i], g[order[i]])
  {
    seq(|order|, i requires 0 <= i < |order| => MakeTx(inp, prev, i, order[i], g[order[i]]))
  }

  // ----- the batches

  /** `txs` cut into batches of `n`. */
  ghost function Chunk<T>(txs: seq<T>, n: nat): seq<seq<T>>
    requires n > 0
  {
    if txs == [] then [] else if |txs| <= n then [txs] else [txs[..n]] + Chunk(txs[n..], n)
  }

  ghost function Flatten<T>(list: seq<seq<T>>): seq<T>
  {
    if list == [] then [] else list[0] + Flatten(list[1..])
  }

  function BatchCount(size: nat, n: nat): nat
    requires n > 0
  {
    size / n + if size % n > 0 then 1 else 0
  }

  /** The batches hold the transactions in order; none is empty and all but the last are full. */
  lemma {:induction false} ChunkShape<T>(txs: seq<T>, n: nat)
    requires n > 0
    ensures Flatten(Chunk(txs, n)) == txs
    ensures forall b :: 0 <= b < |Chunk(txs, n)| ==> 0 < |Chunk(txs, n)[b]| <= n
    ensures forall b :: 0 <= b < |Chunk(txs, n)| - 1 ==> |Chunk(txs, n)[b]| == n
    ensures |Chunk(txs, n)| == BatchCount(|txs|, n)
    decreases |txs|
  {
    if txs == [] {
      DivUnique(0, n, 0, 0);
    } else if |txs| <= n {
      assert Flatten([txs]) == txs;
      if |txs| < n {
        DivUnique(|txs|, n, 0, |txs|);
      } else {
        DivUnique(n, n, 1, 0);
      }
    } else {
      ChunkShape(txs[n..], n);
      DivSub(|txs|, n);
      var rest := Chunk(txs[n..], n);
      assert Chunk(txs, n)[1..] == rest;
      assert txs == txs[..n] + txs[n..];
    }
  }

  /** Appending one transaction opens a new batch exactly when the last one is full. */
  lemma {:induction false} ChunkAppend<T>(txs: seq<T>, t: T, n: nat)
    requires n > 0
    ensures |Chunk(txs, n)| == |txs| / n + if |txs| % n > 0 then 1 else 0
    ensures Chunk(txs + [t], n) ==
              if |txs| % n == 0 then Chunk(txs, n) + [[t]]
              else Chunk(txs, n)[|txs| / n := Chunk(txs, n)[|txs| / n] + [t]]
    decreases |txs|
  {
    if |txs| == 0 {
      DivUnique(0, n, 0, 0);
      assert txs + [t] == [t];
    } else if |txs| < n {
      DivUnique(|txs|, n, 0, |txs|);
    } else if |txs| == n {
      DivUnique(n, n, 1, 0);
      assert (txs + [t])[..n] == txs && (txs + [t])[n..] == [t];
    } else {
      DivSub(|txs|, n);
      ChunkAppend(txs[n..], t, n);
      assert (txs + [t])[..n] == txs[..n] && (txs + [t])[n..] == txs[n..] + [t];
      var rest, q := Chunk(txs[n..], n), |txs| / n;
      if |txs| % n != 0 {
        ConsUpdate(txs[..n], rest, q - 1, rest[q - 1] + [t]);
      }
    }
  }

  lemma ConsUpdate<T>(head: T, rest: seq<T>, i: nat, v: T)
    requires i < |rest|
    ensures ([head] + rest)[i + 1] == rest[i] && ([head] + rest)[i + 1 := v] == [head] + rest[i := v]
  {
  }

  /** When `CalcEndVoteReward` succeeds. */
  ghost predicate Succeeds(inp: CalcInput, prev: PrevContext)
  {
    && AllResolvable(inp)
    && (Recipients(inp) == map[] || inp.perBlock > 0)
    && forall d :: d in Recipients(inp) ==> Payable(inp, prev, d, Recipients(inp)[d])
  }

  ghost function AllTxs(inp: CalcInput, prev: PrevContext): seq<RewardTx>
    requires AllResolvable(inp)
  {
    TxList(inp, prev, Recipients(inp), Ascending(Recipients(inp).Keys))
  }

  /** The batches of the period. */
  ghost function RewardList(inp: CalcInput, prev: PrevContext): seq<seq<RewardTx>>
    requires Succeeds(inp, prev)
  {
    if inp.perBlock == 0 then [] else Chunk(AllTxs(inp, prev), inp.perBlock)
  }

  method AddReward(inp: CalcInput, g: map<Dest, Recipient>, k: Dest) returns (ok: bool, g': map<Dest, Recipient>)
    requires k in inp.rewards
    ensures ok <==> Resolvable(inp, inp.rewards[k])
    ensures ok ==> g' == Raised(inp, g, k)
  {
    var e := inp.rewards[k];
    ok, g' := true, g;
    if e.rewardTo == inp.acc.surplus || e.rewardTo == inp.acc.project || e.rewardTo == inp.acc.foundation {
      if e.rewardTo !in inp.functions {
        return false, g;
      }
      var to := inp.functions[e.rewardTo];
      g' := g[to := Recipient(AmountTo(g, to) + e.amount, false)];
    } else {
      g' := g[e.rewardTo := Recipient(AmountTo(g, e.rewardTo) + e.amount, k != e.rewardTo)];
    }
  }

  method GroupRewards(inp: CalcInput, keys: seq<Dest>) returns (ok: bool, g: map<Dest, Recipient>)
    requires forall k :: k in keys ==> k in inp.rewards
    ensures ok <==> forall k :: k in keys ==> Resolvable(inp, inp.rewards[k])
    ensures ok ==> g == Group(inp, keys)
  {
    g := map[];
    var i := 0;
    while i < |keys|
      invariant 0 <= i <= |keys|
      invariant forall k :: k in keys[..i] ==> Resolvable(inp, inp.rewards[k])
      invariant g == Group(inp, keys[..i])
    {
      assert keys[..i + 1][..i] == keys[..i] && keys[..i + 1] == keys[..i] + [keys[i]];
      ok, g := AddReward(inp, g, keys[i]);
      if !ok {
        return;
      }
      i := i + 1;
    }
    assert keys[..|keys|] == keys;
    ok := true;
  }

  /** `list` holds the batches of `txs`, padded with empty ones. */
  ghost predicate Filled(list: seq<seq<RewardTx>>, txs: seq<RewardTx>, n: nat)
    requires n > 0
  {
    var done := Chunk(txs, n);
    |done| <= |list| && list[..|done|] == done && forall b :: |done| <= b < |list| ==> list[b] == []
  }

  lemma FilledAll(list: seq<seq<RewardTx>>, txs: seq<RewardTx>, n: nat)
    requires n > 0 && Filled(list, txs, n) && |list| == |Chunk(txs, n)|
    ensures list == Chunk(txs, n)
  {
  }

  lemma ChunkCount(txs: seq<RewardTx>, n: nat)
    requires n > 0
    ensures |Chunk(txs, n)| == BatchCount(|txs|, n)
  {
    ChunkShape(txs, n);
  }

  lemma FillStep(list: seq<seq<RewardTx>>, txs: seq<RewardTx>, t: RewardTx, n: nat)
    requires n > 0 && Filled(list, txs, n) && |Chunk(txs + [t], n)| <= |list|
    ensures |txs| / n < |list| && Filled(list[|txs| / n := list[|txs| / n] + [t]], txs + [t], n)
  {
    ChunkAppend(txs, t, n);
    var i := |txs| / n;
    var before, after := Chunk(txs, n), Chunk(txs + [t], n);
    var list' := list[i := list[i] + [t]];
    if |txs| % n == 0 {
      assert i == |before| && list[i] == [];
      assert list'[i] == [t];
      assert list'[..i + 1] == list[..i] + [[t]] == after;
    } else {
      assert i == |before| - 1 && list[..i + 1][i] == before[i];
      assert list'[..i + 1] == list[..i + 1][i := list[i] + [t]] == after;
    }
  }

  lemma {:induction false} ChunkPrefixCount(txs: seq<RewardTx>, i: nat, n: nat)
    requires n > 0 && i <= |txs|
    ensures |Chunk(txs[..i], n)| <= |Chunk(txs, n)|
    decreases |txs| - i
  {
    if i == |txs| {
      assert txs[..i] == txs;
    } else {
      ChunkPrefixCount(txs, i + 1, n);
      ChunkAppend(txs[..i], txs[i], n);
      assert txs[..i] + [txs[i]] == txs[..i + 1];
    }
  }

  method MakeReward(inp: CalcInput, prev: PrevContext, i: nat, d: Dest, r: Recipient) returns (ok: bool, tx: RewardTx)
    ensures ok <==> Payable(inp, prev, d, r)
    ensures ok ==> tx == MakeTx(inp, prev, i, d, r)
  {
    var data := NoData;
    ok := true;
    if r.noVote {
      if d !in prev.known {
        data := PubkeyData;
      }
      if inp.branch002 {
        ok := false;
      }
    } else if d !in prev.known {
      if prev.primary || d !in prev.refKnown {
        ok := false;
      } else {
        data := RefData(prev.refKnown[d]);
      }
    }
    tx := RewardTx(inp.chainId, inp.height * TWO_32 + i, d, r.amount, data);
  }

  ghost predicate AllPayable(inp: CalcInput, prev: PrevContext, g: map<Dest, Recipient>, order: seq<Dest>)
    requires forall d :: d in order ==> d in g
  {
    forall d :: d in order ==> Payable(inp, prev, d, g[d])
  }

  lemma PayableSnoc(inp: CalcInput, prev: PrevContext, g: map<Dest, Recipient>, order: seq<Dest>, i: nat)
    requires i < |order| && forall d :: d in order ==> d in g
    ensures AllPayable(inp, prev, g, order[..i + 1])
            <==> AllPayable(inp, prev, g, order[..i]) && Payable(inp, prev, order[i], g[order[i]])
    ensures AllPayable(inp, prev, g, order) ==> Payable(inp, prev, order[i], g[order[i]])
  {
    assert order[..i + 1] == order[..i] + [order[i]];
  }

  lemma PushStep(list: seq<seq<RewardTx>>, txs: seq<RewardTx>, i: nat, n: nat)
    requires n > 0 && i < |txs| && |list| == |Chunk(txs, n)| && Filled(list, txs[..i], n)
    ensures i / n < |list| && Filled(list[i / n := list[i / n] + [txs[i]]], txs[..i + 1], n)
  {
    var before := txs[..i];
    assert txs[..i + 1] == before + [txs[i]] && |before| == i;
    ChunkPrefixCount(txs, i + 1, n);
    FillStep(list, before, txs[i], n);
  }

  method PushTx(list: seq<seq<RewardTx>>, ghost txs: seq<RewardTx>, i: nat, n: nat, tx: RewardTx)
    returns (list': seq<seq<RewardTx>>)
    requires n > 0 && i < |txs| && txs[i] == tx && |list| == |Chunk(txs, n)| && Filled(list, txs[..i], n)
    ensures |list'| == |list| && Filled(list', txs[..i + 1], n)
  {
    PushStep(list, txs, i, n);
    list' := list[i / n := list[i / n] + [tx]];
  }

  method EmptyBatches(size: nat, n: nat) returns (list: seq<seq<RewardTx>>)
    requires n > 0
    ensures |list| == BatchCount(size, n) && Filled(list, [], n)
  {
    var count := size / n;
    if size % n > 0 {
      count := count + 1;
    }
    list := seq(count, _ => []);
  }

  /** The loop that makes the transactions; the batch index never leaves the list. */
  method FillBatches(inp: CalcInput, prev: PrevContext, g: map<Dest, Recipient>, order: seq<Dest>)
    returns (ok: bool, list: seq<seq<RewardTx>>)
    requires inp.perBlock > 0 && forall d :: d in order ==> d in g
    ensures ok <==> AllPayable(inp, prev, g, order)
    ensures ok ==> list == Chunk(TxList(inp, prev, g, order), inp.perBlock)
  {
    var n := inp.perBlock;
    ghost var txs := TxList(inp, prev, g, order);
    list := EmptyBatches(|order|, n);
    ChunkCount(txs, n);
    var i := 0;
    assert txs[..0] == [];
    while i < |order|
      invariant 0 <= i <= |order|
      invariant AllPayable(inp, prev, g, order[..i])
      invariant |list| == |Chunk(txs, n)| && Filled(list, txs[..i], n)
    {
      PayableSnoc(inp, prev, g, order, i);
      var tx;
      ok, tx := MakeReward(inp, prev, i, order[i], g[order[i]]);
      if !ok {
        return;
      }
      list := PushTx(list, txs, i, n, tx);
      i := i + 1;
    }
    assert txs[..|order|] == txs && order[..|order|] == order;
    FilledAll(list, txs, n);
    ok := true;
  }

  method PayRecipients(inp: CalcInput, prev: PrevContext, g: map<Dest, Recipient>)
    returns (ok: bool, list: seq<seq<RewardTx>>)
    ensures ok <==> (g == map[] || inp.perBlock > 0) && forall d :: d in g ==> Payable(inp, prev, d, g[d])
    ensures ok ==> list == if inp.perBlock == 0 then []
                           else Chunk(TxList(inp, prev, g, Ascending(g.Keys)), inp.perBlock)
  {
    if g == map[] {
      return true, [];
    }
    if inp.perBlock == 0 {
      return false, [];
    }
    ok, list := FillBatches(inp, prev, g, Ascending(g.Keys));
  }

  method GroupAll(inp: CalcInput) returns (ok: bool, g: map<Dest, Recipient>)
    ensures ok <==> AllResolvable(inp)
    ensures ok ==> g == Recipients(inp)
  {
    ok, g := GroupRewards(inp, Ascending(inp.rewards.Keys));
  }

  /** `found` is missing when the period's table or the fork's context is, and `prev` when the block to extend is. */
  method CalcEndVoteReward(found: Option<CalcInput>, prev: Option<PrevContext>)
    returns (ok: bool, list: seq<seq<RewardTx>>)
    ensures ok <==> found.Some? && prev.Some? && Succeeds(found.value, prev.value)
    ensures ok ==> list == RewardList(found.value, prev.value)
  {
    if found.None? || prev.None? {
      return false, [];
    }
    var g;
    ok, g := GroupAll(found.value);
    list := [];
    if ok {
      ok, list := PayRecipients(found.value, prev.value, g);
    }
  }

  // ----- what the batches hold

  ghost function SumTx(txs: seq<RewardTx>): nat
  {
    if txs == [] then 0 else SumTx(txs[..|txs| - 1]) + txs[|txs| - 1].amount
  }

  lemma {:induction false} SumTxConcat(a: seq<RewardTx>, b: seq<RewardTx>)
    ensures SumTx(a + b) == SumTx(a) + SumTx(b)
  {
    if b == [] {
      assert a + b == a;
    } else {
      SumTxConcat(a, b[..|b| - 1]);
      assert (a + b)[..|a + b| - 1] == a + b[..|b| - 1];
    }
  }

  lemma {:induction false} TxListSum(inp: CalcInput, prev: PrevContext, g: map<Dest, Recipient>, order: seq<Dest>)
    requires forall d :: d in order ==> d in g
    ensures SumTx(TxList(inp, prev, g, order)) == SumAt(RecipientAmounts(g), order)
  {
    if order != [] {
      var n := |order| - 1;
      TxListSum(inp, prev, g, order[..n]);
      assert TxList(inp, prev, g, order)[..n] == TxList(inp, prev, g, order[..n]);
    }
  }

  /** All the transactions together pay exactly what the table holds. */
  lemma BatchesPayTable(inp: CalcInput, prev: PrevContext)
    requires Succeeds(inp, prev)
    ensures SumTx(Flatten(RewardList(inp, prev))) == Paid(inp.rewards)
  {
    var g := Recipients(inp);
    RecipientsTotal(inp);
    assert RecipientAmounts(g).Keys == g.Keys;
    AscendingTotal(RecipientAmounts(g), Ascending(g.Keys));
    TxListSum(inp, prev, g, Ascending(g.Keys));
    if inp.perBlock > 0 {
      ChunkShape(AllTxs(inp, prev), inp.perBlock);
    } else {
      assert RecipientAmounts(g) == map[];
    }
  }

  /** The batches hold one transaction per distinct recipient, in address order. */
  lemma BatchesPartition(inp: CalcInput, prev: PrevContext)
    requires Succeeds(inp, prev)
    ensures Flatten(RewardList(inp, prev)) == AllTxs(inp, prev)
    ensures |AllTxs(inp, prev)| == |Recipients(inp)|
    ensures forall i :: 0 <= i < |AllTxs(inp, prev)| ==> AllTxs(inp, prev)[i].to == Ascending(Recipients(inp).Keys)[i]
  {
    if inp.perBlock > 0 {
      ChunkShape(AllTxs(inp, prev), inp.perBlock);
    }
  }

  /** Each transaction pays exactly the entries due to its recipient. */
  lemma BatchAmounts(inp: CalcInput, prev: PrevContext, i: nat)
    requires Succeeds(inp, prev) && i < |AllTxs(inp, prev)|
    ensures AllTxs(inp, prev)[i].amount == Total(Claims(inp, Ascending(inp.rewards.Keys), AllTxs(inp, prev)[i].to))
  {
    GroupAt(inp, Ascending(inp.rewards.Keys), Ascending(Recipients(inp).Keys)[i]);
  }

  /** No batch is empty, all but the last are full, and there are as many as needed. */
  lemma BatchesFull(inp: CalcInput, prev: PrevContext)
    requires Succeeds(inp, prev)
    ensures forall b :: 0 <= b < |RewardList(inp, prev)| ==> 0 < |RewardList(inp, prev)[b]| <= inp.perBlock
    ensures forall b :: 0 <= b < |RewardList(inp, prev)| - 1 ==> |RewardList(inp, prev)[b]| == inp.perBlock
    ensures inp.perBlock > 0 ==> |RewardList(inp, prev)| == BatchCount(|Recipients(inp)|, inp.perBlock)
  {
    if inp.perBlock > 0 {
      ChunkShape(AllTxs(inp, prev), inp.perBlock);
    }
  }

  /** Nonces tell the period's height and the transaction's number, so no two transactions share one. */
  lemma NoncesDistinct(inp: CalcInput, prev: PrevContext)
    requires Succeeds(inp, prev) && |inp.rewards| <= TWO_32
    ensures forall i :: 0 <= i < |AllTxs(inp, prev)| ==>
              AllTxs(inp, prev)[i].nonce / TWO_32 == inp.height && AllTxs(inp, prev)[i].nonce % TWO_32 == i
    ensures forall i, j :: 0 <= i < j < |AllTxs(inp, prev)| ==> AllTxs(inp, prev)[i].nonce != AllTxs(inp, prev)[j].nonce
  {
    GroupSize(inp, Ascending(inp.rewards.Keys));
    forall i | 0 <= i < |AllTxs(inp, prev)|
      ensures AllTxs(inp, prev)[i].nonce / TWO_32 == inp.height && AllTxs(inp, prev)[i].nonce % TWO_32 == i
    {
      DivUnique(AllTxs(inp, prev)[i].nonce, TWO_32, inp.height, i);
    }
  }

  // ----- computing the same period's batches on top of another block

  /** Two transactions with the same recipient, amount and nonce. */
  predicate SamePay(a: RewardTx, b: RewardTx)
  {
    a == b.(toData := a.toData)
  }

  ghost predicate SamePays(a: seq<seq<RewardTx>>, b: seq<seq<RewardTx>>)
  {
    && |a| == |b|
    && forall c :: 0 <= c < |a| ==>
         |a[c]| == |b[c]| && forall i :: 0 <= i < |a[c]| ==> SamePay(a[c][i], b[c][i])
  }

  lemma {:induction false} ChunkSamePays(a: seq<RewardTx>, b: seq<RewardTx>, n: nat)
    requires n > 0 && |a| == |b| && forall i :: 0 <= i < |a| ==> SamePay(a[i], b[i])
    ensures SamePays(Chunk(a, n), Chunk(b, n))
    decreases |a|
  {
    if |a| > n {
      ChunkSamePays(a[n..], b[n..], n);
    }
  }

  /** Recipients, amounts and nonces do not depend on the block being extended. */
  lemma RecomputeAgrees(inp: CalcInput, prev: PrevContext, prev': PrevContext)
    requires Succeeds(inp, prev) && Succeeds(inp, prev')
    ensures SamePays(RewardList(inp, prev), RewardList(inp, prev'))
  {
    if inp.perBlock > 0 {
      TxListSamePays(inp, prev, prev', Recipients(inp), Ascending(Recipients(inp).Keys));
      ChunkSamePays(AllTxs(inp, prev), AllTxs(inp, prev'), inp.perBlock);
    }
  }

  lemma TxListSamePays(inp: CalcInput, prev: PrevContext, prev': PrevContext, g: map<Dest, Recipient>, order: seq<Dest>)
    requires forall d :: d in order ==> d in g
    ensures forall i :: 0 <= i < |order| ==> SamePay(TxList(inp, prev, g, order)[i], TxList(inp, prev', g, order)[i])
  {
  }

  lemma ChunkInjective(a: seq<RewardTx>, b: seq<RewardTx>, n: nat)
    requires n > 0
    ensures Chunk(a, n) == Chunk(b, n) <==> a == b
  {
    ChunkShape(a, n);
    ChunkShape(b, n);
  }

  lemma TxListEqualIff(inp: CalcInput, prev: PrevContext, prev': PrevContext, g: map<Dest, Recipient>, order: seq<Dest>)
    requires forall d :: d in order ==> d in g
    ensures TxList(inp, prev, g, order) == TxList(inp, prev', g, order)
       <==> forall d :: d in order ==> DataFor(prev, d, g[d]) == DataFor(prev', d, g[d])
  {
    var a, b := TxList(inp, prev, g, order), TxList(inp, prev', g, order);
    if a == b {
      forall d | d in order ensures DataFor(prev, d, g[d]) == DataFor(prev', d, g[d]) {
        var i :| 0 <= i < |order| && order[i] == d;
        assert a[i].toData == b[i].toData;
      }
    }
  }

  /** The whole transactions agree exactly when no recipient's address context changed in between. */
  lemma RecomputeEqualIff(inp: CalcInput, prev: PrevContext, prev': PrevContext)
    requires Succeeds(inp, prev) && Succeeds(inp, prev')
    ensures RewardList(inp, prev) == RewardList(inp, prev')
       <==> forall d :: d in Recipients(inp) ==>
                          DataFor(prev, d, Recipients(inp)[d]) == DataFor(prev', d, Recipients(inp)[d])
  {
    TxListEqualIff(inp, prev, prev', Recipients(inp), Ascending(Recipients(inp).Keys));
    if inp.perBlock > 0 {
      ChunkInjective(AllTxs(inp, prev), AllTxs(inp, prev'), inp.perBlock);
    }
  }

  /** An owner that became known in between its voter's payments: the same payment, but another transaction. */
  lemma RecomputeDiffers(acc: Accounts, voter: Dest, owner: Dest)
    requires !Special(acc, owner) && voter > 0 && owner > 0 && voter != owner
    ensures var inp := CalcInput(map[voter := Entry(owner, 5)], acc, map[], 1, 9, false, 1);
            var prev, prev' := PrevContext(true, {}, map[]), PrevContext(true, {owner}, map[]);
            Succeeds(inp, prev) && Succeeds(inp, prev') && RewardList(inp, prev) != RewardList(inp, prev')
  {
    var inp := CalcInput(map[voter := Entry(owner, 5)], acc, map[], 1, 9, false, 1);
    var prev, prev' := PrevContext(true, {}, map[]), PrevContext(true, {owner}, map[]);
    var keys := Ascending(inp.rewards.Keys);
    assert |keys| == 1 && keys[0] in inp.rewards;
    assert keys == [voter] && keys[..0] == [];
    assert Group(inp, keys) == Raised(inp, Group(inp, keys[..0]), voter);
    assert Recipients(inp) == map[owner := Recipient(5, true)];
    RecomputeEqualIff(inp, prev, prev');
  }
}
