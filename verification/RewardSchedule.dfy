/**
 * Which block carries which batch of reward transactions, with its cache and its shortcut (`CalcBlockVoteRewardTx`).
 */
module RewardSchedule {
  import opened Common
  import opened RewardBatches
  import opened ForkChain

  /** Half of MAX_SNAPSHOT_STATE_HEIGHT. */
  const EARLY_EXIT_OFFSET: nat := 5

  /** MAX_CACHE_DISTRIBUTE_VOTE_REWARD_BLOCK_COUNT */
  const MAX_CACHE_BLOCKS: nat := 8

  /**
   * The distribution period, and the answer of `CalcEndVoteReward` for the period that a block closes, asked on top of
   * another block.
   */
  datatype Env = Env(period: nat, compute: (Hash, Hash) -> Option<seq<seq<RewardTx>>>)

  // ----- the schedule

  /** No reward transactions are due in these blocks. */
  predicate Exempt(period: nat, prevHeight: nat, kind: Kind, height: nat)
    requires period > 0
  {
    prevHeight < period || height % period == 0 || kind.Genesis? || kind.Origin? || kind.Vacant?
  }

  /** The nearest ancestor whose height closes a period. */
  function PeriodEnd(c: Chain, period: nat): (e: Chain)
    requires period > 0
    ensures e.Block? ==> e.info.height % period == 0
  {
    if c.Null? || c.info.height % period == 0 then c else PeriodEnd(c.prev, period)
  }

  /** How many non-vacant blocks the running period has so far. */
  function BlocksSince(c: Chain, period: nat): nat
    requires period > 0
  {
    if c.Null? || c.info.height % period == 0 then 0
    else BlocksSince(c.prev, period) + if c.info.kind.Vacant? then 0 else 1
  }

  /** The batch that the block after `c` carries. */
  function BatchIndex(c: Chain, period: nat): nat
    requires period > 0 && c.Block?
  {
    if IsPrimary(c.info.kind) then c.info.height % period else BlocksSince(c, period)
  }

  function Slot(list: seq<seq<RewardTx>>, i: nat): seq<RewardTx>
  {
    if i < |list| then list[i] else []
  }

  /** The shortcut: late in the period, and the previous block added no reward transaction. */
  predicate EarlyExit(c: Chain, period: nat)
    requires period > 0 && c.Block?
  {
    c.info.height % period > EARLY_EXIT_OFFSET && c.prev.Block? && c.prev.info.rewardTotal == c.info.rewardTotal
  }

  /** `list` was computed for the period that `h` closes, on top of some block. */
  ghost predicate Computed(env: Env, h: Hash, list: seq<seq<RewardTx>>)
  {
    exists p: Hash :: env.compute(h, p) == Some(list)
  }

  ghost predicate Computable(env: Env, h: Hash)
  {
    exists list :: Computed(env, h, list)
  }

  /** What `CalcBlockVoteRewardTx` can answer, whatever its cache holds. */
  ghost predicate Outcome(env: Env, prev: Chain, kind: Kind, height: nat, txs: seq<RewardTx>)
    requires env.period > 0 && prev.Block?
  {
    if Exempt(env.period, prev.info.height, kind, height) || EarlyExit(prev, env.period) then txs == []
    else
      var e := PeriodEnd(prev, env.period);
      e.Block? && if e.info.origin != prev.info.origin then txs == []
                  else exists list ::
                         Computed(env, e.info.hash, list) && txs == Slot(list, BatchIndex(prev, env.period))
  }

  // ----- the method

  /** A fork's cached lists, by the last block of their period. */
  type Entries = map<Hash, seq<seq<RewardTx>>>

  /** Every cached list was computed for its key. */
  ghost predicate EntriesSound(env: Env, entries: Entries)
  {
    forall h :: h in entries ==> Computed(env, h, entries[h])
  }

  class Scheduler {
    const env: Env
    var cache: map<Hash, Entries>

    constructor (env: Env)
      ensures this.env == env && cache == map[]
    {
      this.env, cache := env, map[];
    }

    ghost predicate Valid()
      reads this
    {
      env.period > 0 && (forall f :: f in cache ==> EntriesSound(env, cache[f]))
    }

    method CalcBlockVoteRewardTx(prevHeight: nat, prev: Chain, kind: Kind, height: nat)
      returns (ok: bool, txs: seq<RewardTx>)
      requires Valid() && (prev.Block? ==> prev.info.height == prevHeight)
      modifies this
      ensures Valid()
      ensures prev.Block? && ok ==> Outcome(env, prev, kind, height, txs)
      ensures prev.Null? ==> (ok <==> Exempt(env.period, prevHeight, kind, height)) && (ok ==> txs == [])
      // a failure leaves no entry behind, and means that the period's data is missing or cannot be paid from here
      ensures prev.Block? && !ok ==>
                && !Exempt(env.period, prevHeight, kind, height)
                && var e := PeriodEnd(prev, env.period);
                   e.Null? || (&& env.compute(e.info.hash, prev.info.hash).None?
                               && prev.info.origin in cache && e.info.hash !in cache[prev.info.origin])
      // other forks keep their caches
      ensures forall f :: f in old(cache) && (prev.Null? || f != prev.info.origin) ==>
                            f in cache && cache[f] == old(cache)[f]
    {
      ok, txs := true, [];
      if prevHeight < env.period || height % env.period == 0 || kind.Genesis? || kind.Origin? || kind.Vacant? {
        return;
      }
      if prev.Null? {
        return false, [];
      }
      if prev.info.height % env.period > EARLY_EXIT_OFFSET {
        if prev.prev.Block? && prev.prev.info.rewardTotal == prev.info.rewardTotal {
          return;
        }
      }
      var fork := prev.info.origin;
      var index := FindPeriodEnd(prev);
      if index.Null? {
        return false, [];
      }
      if index.info.origin != fork {
        return;
      }
      var list;
      ok, list := Lookup(fork, index.info.hash, prev.info.hash);
      if ok {
        var i := 0;
        if IsPrimary(prev.info.kind) {
          i := prevHeight % env.period;
        } else {
          i := CountBlocks(prev);
        }
        if i < |list| {
          txs := list[i];
        }
      }
    }

    method FindPeriodEnd(prev: Chain) returns (index: Chain)
      requires env.period > 0
      ensures index == PeriodEnd(prev, env.period)
    {
      index := prev;
      while index.Block? && index.info.height % env.period > 0
        invariant PeriodEnd(index, env.period) == PeriodEnd(prev, env.period)
        decreases index
      {
        index := index.prev;
      }
    }

    method CountBlocks(prev: Chain) returns (count: nat)
      requires env.period > 0
      ensures count == BlocksSince(prev, env.period)
    {
      count := 0;
      var index := prev;
      while index.Block? && index.info.height % env.period > 0
        invariant count + BlocksSince(index, env.period) == BlocksSince(prev, env.period)
        decreases index
      {
        if !index.info.kind.Vacant? {
          count := count + 1;
        }
        index := index.prev;
      }
    }

    /** The cached list of a period, computed on first use. */
    method Lookup(fork: Hash, end: Hash, prevHash: Hash) returns (ok: bool, list: seq<seq<RewardTx>>)
      requires Valid()
      modifies this
      ensures Valid() && fork in cache
      ensures forall f :: f in old(cache) && f != fork ==> f in cache && cache[f] == old(cache)[f]
      ensures |cache[fork]| <= MAX_CACHE_BLOCKS + 1
      ensures ok ==> end in cache[fork] && cache[fork][end] == list
      ensures ok && fork in old(cache) && end in old(cache)[fork] ==> list == old(cache)[fork][end]
      ensures !ok ==> end !in cache[fork] && env.compute(end, prevHash).None?
    {
      var entries := if fork in cache then cache[fork] else map[];
      ok, list, entries := Fetch(env, entries, end, prevHash);
      cache := cache[fork := entries];
    }
  }

  method MakeRoom(entries: Entries, current: Hash) returns (r: Entries)
    ensures forall h :: h in r ==> h in entries && r[h] == entries[h]
    ensures |r| <= MAX_CACHE_BLOCKS
    ensures current in entries ==> current in r
  {
    r := Evict(entries, current, Ascending(entries.Keys));
  }

  method Fetch(env: Env, entries: Entries, end: Hash, prevHash: Hash)
    returns (ok: bool, list: seq<seq<RewardTx>>, r: Entries)
    requires EntriesSound(env, entries)
    ensures EntriesSound(env, r) && |r| <= MAX_CACHE_BLOCKS + 1
    ensures ok ==> end in r && r[end] == list
    ensures end in entries ==> ok && list == entries[end]
    ensures !ok ==> end !in r && env.compute(end, prevHash).None?
  {
    r := MakeRoom(entries, end);
    ok, list := true, [];
    if end in r {
      list := r[end];
    } else {
      var computed := env.compute(end, prevHash);
      ok := computed.Some?;
      if ok {
        list := computed.value;
        r := r[end := list];
      }
    }
  }

  ghost predicate Distinct(order: seq<Hash>)
  {
    forall i, j :: 0 <= i < j < |order| ==> order[i] != order[j]
  }

  lemma EvictStep(entries: Entries, order: seq<Hash>, i: nat, current: Hash)
    requires Distinct(order) && i < |order| && forall j :: i <= j < |order| ==> order[j] in entries
    ensures var h := order[i];
            && |entries - {h}| == |entries| - 1
            && (current in order[..i + 1] <==> current in order[..i] || h == current)
            && (h == current ==> current !in order[..i])
            && forall j :: i + 1 <= j < |order| ==> order[j] in entries - {h}
  {
    assert order[..i + 1] == order[..i] + [order[i]];
    assert (entries - {order[i]}).Keys == entries.Keys - {order[i]};
    assert order[i] in entries.Keys;
  }

  /** The eviction loop: it stays within the map, keeps the current key, and leaves at most the maximum. */
  method Evict(entries: Entries, current: Hash, order: seq<Hash>) returns (r: Entries)
    requires Distinct(order) && |order| == |entries| && forall i :: 0 <= i < |order| ==> order[i] in entries
    ensures forall h :: h in r ==> h in entries && r[h] == entries[h]
    ensures |r| <= MAX_CACHE_BLOCKS
    ensures current in entries ==> current in r
    ensures |entries| <= MAX_CACHE_BLOCKS ==> r == entries
  {
    r := entries;
    var i := 0;
    while |r| > MAX_CACHE_BLOCKS
      invariant 0 <= i <= |order|
      invariant forall h :: h in r ==> h in entries && r[h] == entries[h]
      invariant forall j :: i <= j < |order| ==> order[j] in r
      invariant current in entries ==> current in r
      invariant |r| == |order| - i + if current in order[..i] then 1 else 0
      invariant |entries| <= MAX_CACHE_BLOCKS ==> r == entries
      decreases |order| - i
    {
      EvictStep(r, order, i, current);
      if order[i] != current {
        r := r - {order[i]};
      }
      i := i + 1;
    }
  }
}
