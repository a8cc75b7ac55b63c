/** The cache of blocks whose previous block has not arrived yet. */
module OrphanCache {
  import opened Common

  const MAX_CACHE_CHN_BLOCK_COUNT: nat := 2000
  const MAX_CACHE_CHN_BLOCK_SIZE: nat := 1024 * 1024 * 1024
  const CHECK_INTERVAL: nat := 60
  const CACHE_LIFETIME: nat := 3600 * 24

  /** A cached block: its previous block, its size in bytes, when it was cached and the peer it came from. */
  datatype Entry = Entry(prev: Hash, size: nat, time: nat, nonce: nat)

  /** Block hashes are numbered in the order of the cache's comparison, so the first key is the least. */
  type Blocks = map<Hash, Entry>

  ghost function Children(m: Blocks, p: Hash): set<Hash>
  {
    set h | h in m && m[h].prev == p
  }

  ghost function Sizes(m: Blocks): map<Hash, nat>
  {
    map h | h in m :: m[h].size
  }

  ghost function Bytes(m: Blocks): nat
  {
    Total(Sizes(m))
  }

  /** `index` is the reverse of the prev links, without empty sets. */
  ghost predicate Reverses(index: map<Hash, set<Hash>>, m: Blocks)
  {
    && (forall p, h :: p in index && h in index[p] ==> h in m && m[h].prev == p)
    && (forall h :: h in m ==> m[h].prev in index && h in index[m[h].prev])
    && (forall p :: p in index ==> index[p] != {})
  }

  lemma IndexIsChildren(index: map<Hash, set<Hash>>, m: Blocks, p: Hash)
    requires Reverses(index, m)
    ensures (if p in index then index[p] else {}) == Children(m, p)
  {
  }

  /** The reverse index is determined by the cache. */
  lemma ReversesUnique(index: map<Hash, set<Hash>>, index': map<Hash, set<Hash>>, m: Blocks)
    requires Reverses(index, m) && Reverses(index', m)
    ensures index == index'
  {
    forall p | p in index || p in index' ensures p in index && p in index' && index[p] == index'[p] {
      var h :| h in if p in index then index[p] else index'[p];
      assert m[h].prev == p;
      IndexIsChildren(index, m, p);
      IndexIsChildren(index', m, p);
    }
  }

  lemma BytesRemove(m: Blocks, h: Hash)
    requires h in m
    ensures Bytes(m) == m[h].size + Bytes(m - {h})
  {
    TotalRemove(Sizes(m), h);
    assert Sizes(m) - {h} == Sizes(m - {h});
  }

  // ----- eviction

  predicate Full(count: nat, bytes: nat)
  {
    count >= MAX_CACHE_CHN_BLOCK_COUNT || (bytes >= MAX_CACHE_CHN_BLOCK_SIZE && count > 0)
  }

  /** Dropping first keys until there is room. */
  ghost function Evicted(m: Blocks): Blocks
    decreases |m|
  {
    if Full(|m|, Bytes(m)) then Evicted(m - {Least(m.Keys)}) else m
  }

  /**
   * Eviction keeps the blocks from some hash on, leaves room, and stops as soon as there is room:
   * with the last evicted block put back the cache would be full.
   */
  lemma {:induction false} EvictedTop(m: Blocks)
    ensures forall h :: h in Evicted(m) ==> h in m && Evicted(m)[h] == m[h]
    ensures forall h, k :: h in m && h !in Evicted(m) && k in Evicted(m) ==> h < k
    ensures !Full(|Evicted(m)|, Bytes(Evicted(m)))
    ensures Evicted(m) != m ==>
              exists h :: h in m && h !in Evicted(m) && LastOut(m, Evicted(m), h)
    decreases |m|
  {
    if Full(|m|, Bytes(m)) {
      var first := Least(m.Keys);
      var rest := m - {first};
      EvictedTop(rest);
      if Evicted(rest) == rest {
        assert rest[first := m[first]] == m;
        assert LastOut(m, Evicted(m), first);
      } else {
        var h :| h in rest && h !in Evicted(rest) && LastOut(rest, Evicted(rest), h);
        assert LastOut(m, Evicted(m), h);
      }
    }
  }

  /** There is room below 2000 blocks and 1 GiB, and always in an empty cache. */
  lemma RoomIff(m: Blocks)
    ensures Evicted(m) == m <==> |m| < 2000 && (Bytes(m) < 1073741824 || m == map[])
  {
    if Full(|m|, Bytes(m)) {
      EvictedTop(m - {Least(m.Keys)});
      assert Least(m.Keys) !in Evicted(m);
    }
  }

  /** Putting `h` back on top of what was kept makes the cache full. */
  ghost predicate LastOut(m: Blocks, kept: Blocks, h: Hash)
  {
    h in m && Full(|kept[h := m[h]]|, Bytes(kept[h := m[h]]))
  }

  // ----- cached ancestors

  /** The cached blocks met on the way down from `h`. */
  ghost function Lineage(m: Blocks, h: Hash): set<Hash>
    decreases |m|
  {
    if h in m then {h} + Lineage(m - {h}, m[h].prev) else {}
  }

  lemma LineageStep(m: Blocks, h: Hash)
    requires h in m
    ensures m - Lineage(m, h) == (m - {h}) - Lineage(m - {h}, m[h].prev)
  {
  }

  ghost predicate ClosedDown(m: Blocks, s: set<Hash>)
  {
    forall x :: x in s && x in m && m[x].prev in m ==> m[x].prev in s
  }

  /** The lineage is the least set of cached blocks that has `h` and, with a block, its cached previous block. */
  lemma {:induction false} LineageLeast(m: Blocks, h: Hash, s: set<Hash>)
    ensures Lineage(m, h) <= m.Keys && ClosedDown(m, Lineage(m, h))
    ensures (h in m ==> h in s) && ClosedDown(m, s) ==> Lineage(m, h) <= s
    decreases |m|
  {
    if h in m {
      var rest, p := m - {h}, m[h].prev;
      LineageLeast(rest, p, s);
      assert ClosedDown(m, Lineage(m, h)) by {
        forall x | x in Lineage(m, h) && m[x].prev in m ensures m[x].prev in Lineage(m, h) {
          if x == h {
            assert p in rest ==> p in Lineage(rest, p);
          } else {
            assert x in Lineage(rest, p) && rest[x] == m[x];
          }
        }
      }
      if h in s && ClosedDown(m, s) {
        assert ClosedDown(rest, s);
      }
    }
  }

  // ----- time-out

  /** Unsigned 64-bit subtraction. */
  function Sub64(a: nat, b: nat): nat
    requires b < TWO_64
  {
    if a >= b then a - b else TWO_64 - b + a
  }

  lemma Sub64Wraps(a: nat, b: nat)
    requires a < TWO_64 && b < TWO_64
    ensures Sub64(a, b) < TWO_64 && (Sub64(a, b) + b) % TWO_64 == a
  {
  }

  predicate Expired(e: Entry, now: nat)
    requires now < TWO_64
  {
    e.time < Sub64(now, CACHE_LIFETIME)
  }

  ghost function Fresh(m: Blocks, now: nat): Blocks
    requires now < TWO_64
  {
    map h | h in m && !Expired(m[h], now) :: m[h]
  }

  // ----- the cache

  /** `s` has the elements of `t`, each once. */
  ghost predicate Lists(s: seq<Hash>, t: set<Hash>)
  {
    (forall h :: h in s <==> h in t) && forall i, j :: 0 <= i < j < |s| ==> s[i] != s[j]
  }

  ghost function Without(m: Blocks, s: seq<Hash>): Blocks
  {
    m - set h | h in s
  }

  lemma SubmapSize(m: Blocks, m': Blocks)
    requires m.Keys <= m'.Keys
    ensures |m| <= |m'|
    decreases |m|
  {
    if m != map[] {
      var h :| h in m;
      SubmapSize(m - {h}, m' - {h});
      assert |m - {h}| == |m| - 1 && |m' - {h}| == |m'| - 1;
    }
  }

  class Cache {
    /** The largest block the node accepts. */
    const largest: nat
    var blocks: Blocks
    var prevIndex: map<Hash, set<Hash>>
    var byteCount: nat
    var prevCheckTime: nat
    /** The blocks handed to the dispatcher, in order. */
    ghost var dispatched: seq<Hash>

    constructor (largest: nat)
      requires MAX_CACHE_CHN_BLOCK_SIZE + largest < TWO_64
      ensures Valid() && blocks == map[] && dispatched == [] && this.largest == largest && prevCheckTime == 0
    {
      this.largest := largest;
      blocks, prevIndex, byteCount, prevCheckTime, dispatched := map[], map[], 0, 0, [];
    }

    ghost predicate Consistent()
      reads this
    {
      && Reverses(prevIndex, blocks)
      && byteCount == Bytes(blocks)
      && byteCount < MAX_CACHE_CHN_BLOCK_SIZE + largest + 1 <= TWO_64
    }

    /** The invariant between operations. */
    ghost predicate Valid()
      reads this
    {
      Consistent() && |blocks| <= MAX_CACHE_CHN_BLOCK_COUNT
    }

    method RemoveCacheBlock(hash: Hash)
      requires Consistent()
      modifies this`blocks, this`prevIndex, this`byteCount
      ensures Consistent() && blocks == old(blocks) - {hash}
    {
      if hash in blocks {
        BytesRemove(blocks, hash);
        var entry := blocks[hash];
        if entry.prev in prevIndex {
          var rest := prevIndex[entry.prev] - {hash};
          prevIndex := prevIndex[entry.prev := rest];
          if rest == {} {
            prevIndex := prevIndex - {entry.prev};
          }
        }
        byteCount := byteCount - entry.size;
        RemovedReverses(old(prevIndex), blocks, hash, prevIndex);
        blocks := blocks - {hash};
        if blocks == map[] {
          prevIndex := map[];
          byteCount := 0;
        }
      } else {
        assert blocks - {hash} == blocks;
      }
    }

    method AddCacheBlock(hash: Hash, prev: Hash, size: nat, nonce: nat, now: nat)
      requires Valid() && size <= largest
      modifies this`blocks, this`prevIndex, this`byteCount
      ensures Valid()
      ensures hash in old(blocks) ==> blocks == old(blocks)
      ensures hash !in old(blocks) ==> blocks == Evicted(old(blocks))[hash := Entry(prev, size, now, nonce)]
    {
      if hash !in blocks {
        while Full(|blocks|, byteCount)
          invariant Consistent() && hash !in blocks
          invariant Evicted(blocks) == Evicted(old(blocks))
          decreases |blocks|
        {
          RemoveCacheBlock(Least(blocks.Keys));
        }
        var entry := Entry(prev, size, now, nonce);
        assert |blocks| < MAX_CACHE_CHN_BLOCK_COUNT;
        AddedReverses(prevIndex, blocks, hash, entry);
        BytesAdd(blocks, hash, entry);
        blocks := blocks[hash := entry];
        prevIndex := prevIndex[prev := (if prev in prevIndex then prevIndex[prev] else {}) + {hash}];
        byteCount := byteCount + size;
      }
    }

    method RemoveEach(hashes: seq<Hash>)
      requires Consistent()
      modifies this`blocks, this`prevIndex, this`byteCount
      ensures Consistent() && blocks == Without(old(blocks), hashes)
    {
      for i := 0 to |hashes|
        invariant Consistent() && blocks == Without(old(blocks), hashes[..i])
      {
        WithoutStep(old(blocks), hashes, i);
        RemoveCacheBlock(hashes[i]);
      }
      assert hashes[..|hashes|] == hashes;
    }

    /** Hands every cached child to the dispatcher, whatever it answers, in the order of `children`. */
    method Dispatch(children: set<Hash>) returns (removed: seq<Hash>)
      requires children <= blocks.Keys
      modifies this`dispatched
      ensures dispatched == old(dispatched) + removed
      ensures Lists(removed, children)
    {
      removed := [];
      var todo := children;
      while todo != {}
        invariant todo <= children && dispatched == old(dispatched) + removed
        invariant Lists(removed, children - todo)
      {
        var hash :| hash in todo;
        todo := todo - {hash};
        if hash in blocks {
          dispatched := dispatched + [hash];
          removed := removed + [hash];
        }
      }
    }

    method RemoveLineage(hash: Hash)
      requires Consistent()
      modifies this`blocks, this`prevIndex, this`byteCount
      ensures Consistent() && blocks == old(blocks) - Lineage(old(blocks), hash)
    {
      var next := hash;
      while next in blocks
        invariant Consistent()
        invariant blocks - Lineage(blocks, next) == old(blocks) - Lineage(old(blocks), hash)
        decreases |blocks|
      {
        var prev := blocks[next].prev;
        LineageStep(blocks, next);
        RemoveCacheBlock(next);
        next := prev;
      }
    }

    /**
     * The cached children of `hash` are dispatched, each once; they, `hash` and its cached ancestors leave the cache.
     */
    method Arrive(hash: Hash)
      requires Consistent()
      modifies this`blocks, this`prevIndex, this`byteCount, this`dispatched
      ensures Consistent() && blocks == AfterArrival(old(blocks), hash)
      ensures exists children: seq<Hash> ::
                dispatched == old(dispatched) + children && Lists(children, Children(old(blocks), hash))
    {
      var removed := DispatchChildren(hash);
      ArrivalParts(blocks, removed, hash);
      RemoveEach(removed);
      RemoveLineage(hash);
    }

    method DispatchChildren(hash: Hash) returns (removed: seq<Hash>)
      requires Consistent()
      modifies this`dispatched
      ensures dispatched == old(dispatched) + removed && Lists(removed, Children(blocks, hash))
    {
      removed := [];
      IndexIsChildren(prevIndex, blocks, hash);
      if hash in prevIndex {
        removed := Dispatch(prevIndex[hash]);
      }
    }

    /**
     * What happens when `hash` has been added to the chain; at most once a minute, what is a day old is dropped too.
     */
    method AddNextBlock(hash: Hash, now: nat)
      requires Valid() && now < TWO_64
      modifies this
      ensures Valid()
      ensures hash !in blocks && Children(blocks, hash) == {}
      ensures exists children: seq<Hash> ::
                dispatched == old(dispatched) + children && Lists(children, Children(old(blocks), hash))
      ensures blocks == AfterTimeout(AfterArrival(old(blocks), hash), old(prevCheckTime), now)
      ensures prevCheckTime == if Throttled(old(prevCheckTime), now) then old(prevCheckTime) else now
    {
      Arrive(hash);
      ArrivalClean(blocks, old(blocks), hash);
      ClearCacheTimeout(now);
      SubmapSize(blocks, old(blocks));
    }

    method ClearCacheTimeout(now: nat)
      requires Consistent() && now < TWO_64
      modifies this`blocks, this`prevIndex, this`byteCount, this`prevCheckTime
      ensures Consistent()
      ensures blocks == AfterTimeout(old(blocks), old(prevCheckTime), now)
      ensures prevCheckTime == if Throttled(old(prevCheckTime), now) then old(prevCheckTime) else now
    {
      if (prevCheckTime + CHECK_INTERVAL) % TWO_64 > now {
        return;
      }
      prevCheckTime := now;
      var timeout := OlderThan(Ascending(blocks.Keys), Sub64(now, CACHE_LIFETIME));
      FreshParts(blocks, timeout, now);
      RemoveEach(timeout);
    }

    method OlderThan(keys: seq<Hash>, end: nat) returns (timeout: seq<Hash>)
      requires forall h :: h in keys ==> h in blocks
      ensures forall h :: h in timeout <==> h in keys && blocks[h].time < end
    {
      timeout := [];
      for i := 0 to |keys|
        invariant forall h :: h in timeout <==> h in keys[..i] && blocks[h].time < end
      {
        if blocks[keys[i]].time < end {
          timeout := timeout + [keys[i]];
        }
      }
      assert keys[..|keys|] == keys;
    }
  }

  predicate Throttled(prevCheckTime: nat, now: nat)
  {
    (prevCheckTime + CHECK_INTERVAL) % TWO_64 > now
  }

  ghost function AfterTimeout(m: Blocks, prevCheckTime: nat, now: nat): Blocks
    requires now < TWO_64
  {
    if Throttled(prevCheckTime, now) then m else Fresh(m, now)
  }

  /** A check within a minute of the last one drops nothing. */
  lemma SoonKeeps(m: Blocks, prevCheckTime: nat, now: nat)
    requires prevCheckTime + 60 < TWO_64 && now < prevCheckTime + 60
    ensures AfterTimeout(m, prevCheckTime, now) == m
  {
  }

  /** A later one drops exactly the blocks that were cached more than a day ago. */
  lemma LaterDrops(m: Blocks, prevCheckTime: nat, now: nat, h: Hash)
    requires prevCheckTime + 60 <= now < TWO_64 && 86400 <= now
    ensures h in AfterTimeout(m, prevCheckTime, now) <==> h in m && m[h].time + 86400 >= now
    ensures h in AfterTimeout(m, prevCheckTime, now) ==> AfterTimeout(m, prevCheckTime, now)[h] == m[h]
  {
  }

  ghost function AfterArrival(m: Blocks, h: Hash): Blocks
  {
    var orphans := m - Children(m, h);
    orphans - Lineage(orphans, h)
  }

  lemma WithoutStep(m: Blocks, s: seq<Hash>, i: nat)
    requires i < |s|
    ensures Without(m, s[..i + 1]) == Without(m, s[..i]) - {s[i]}
  {
    assert s[..i + 1] == s[..i] + [s[i]];
  }

  lemma ArrivalParts(m: Blocks, removed: seq<Hash>, h: Hash)
    requires Lists(removed, Children(m, h))
    ensures var orphans := Without(m, removed); orphans - Lineage(orphans, h) == AfterArrival(m, h)
  {
    assert Without(m, removed) == m - Children(m, h);
  }

  lemma FreshParts(m: Blocks, timeout: seq<Hash>, now: nat)
    requires now < TWO_64
    requires forall h :: h in timeout <==> h in m && m[h].time < Sub64(now, CACHE_LIFETIME)
    ensures Without(m, timeout) == Fresh(m, now)
  {
  }

  lemma ArrivalClean(after: Blocks, m: Blocks, h: Hash)
    requires after == AfterArrival(m, h)
    ensures h !in after && Children(after, h) == {} && after.Keys <= m.Keys
  {
    LineageLeast(m - Children(m, h), h, {});
  }

  /** An arrival never drops a block that is neither a child nor a cached ancestor. */
  lemma ArrivalKeeps(m: Blocks, h: Hash, s: set<Hash>, k: Hash)
    requires (h in m ==> h in s) && ClosedDown(m, s)
    requires k in m && k !in s && m[k].prev != h
    ensures k in AfterArrival(m, h) && AfterArrival(m, h)[k] == m[k]
  {
    var orphans := m - Children(m, h);
    assert ClosedDown(orphans, s);
    LineageLeast(orphans, h, s);
  }

  lemma RemovedReverses(index: map<Hash, set<Hash>>, m: Blocks, h: Hash, index': map<Hash, set<Hash>>)
    requires Reverses(index, m) && h in m
    requires var p := m[h].prev; index' == if index[p] == {h} then index - {p} else index[p := index[p] - {h}]
    ensures Reverses(index', m - {h})
  {
    var p := m[h].prev;
    forall q | q in index' ensures index'[q] != {} && index'[q] == Children(m - {h}, q) {
      assert index[q] == Children(m, q);
      assert Children(m - {h}, q) == Children(m, q) - {h};
      assert h in Children(m, p);
    }
    forall k | k in m - {h} ensures m[k].prev in index' {
      assert k in Children(m, m[k].prev);
    }
  }

  lemma AddedReverses(index: map<Hash, set<Hash>>, m: Blocks, h: Hash, e: Entry)
    requires Reverses(index, m) && h !in m
    ensures Reverses(index[e.prev := (if e.prev in index then index[e.prev] else {}) + {h}], m[h := e])
  {
    var index' := index[e.prev := (if e.prev in index then index[e.prev] else {}) + {h}];
    if e.prev !in index {
      assert Children(m, e.prev) == {};
    }
    forall q | q in index' ensures index'[q] == Children(m[h := e], q) {
      assert Children(m[h := e], q) == Children(m, q) + if q == e.prev then {h} else {};
    }
  }

  lemma BytesAdd(m: Blocks, h: Hash, e: Entry)
    requires h !in m
    ensures Bytes(m[h := e]) == Bytes(m) + e.size
  {
    BytesRemove(m[h := e], h);
    assert m[h := e] - {h} == m;
  }
}
