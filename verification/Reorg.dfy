/** The blocks to add and remove when a fork's tip changes (`GetBlockChanges`). */
module Reorg {
  import opened Common

  datatype BlockIndex = BlockIndex(prev: Hash, number: nat, time: nat)

  type Store = map<Hash, BlockIndex>

  /** Block numbers rise along prev links, so the indexes form trees. */
  ghost predicate Numbered(store: Store)
  {
    forall h :: h in store && store[h].prev in store ==> store[store[h].prev].number < store[h].number
  }

  /**
   * Every block is later than the one before it. Primary, subsidiary and extended blocks always are; a vacant block is
   * unless it takes time back, which the sub-fork rules do not rule out.
   */
  ghost predicate Increasing(store: Store)
  {
    forall h :: h in store && store[h].prev in store ==> store[store[h].prev].time < store[h].time
  }

  ghost function Rank(store: Store, h: Hash): nat
  {
    if h in store then store[h].number + 1 else 0
  }

  /** The chain below `h`, tip first. */
  ghost function Path(store: Store, h: Hash): seq<Hash>
    requires Numbered(store)
    decreases Rank(store, h)
  {
    if h !in store then [] else [h] + Path(store, store[h].prev)
  }

  lemma {:induction false} PathBelow(store: Store, h: Hash, x: Hash)
    requires Numbered(store) && x in Path(store, h)
    ensures x in store && h in store && (x == h || store[x].number < store[h].number)
    ensures Increasing(store) ==> x == h || store[x].time < store[h].time
    decreases Rank(store, h)
  {
    if x != h {
      PathBelow(store, store[h].prev, x);
    }
  }

  /** The chain below a block of a chain is the rest of that chain. */
  lemma {:induction false} PathSuffix(store: Store, h: Hash, x: Hash) returns (above: seq<Hash>)
    requires Numbered(store) && x in Path(store, h)
    ensures Path(store, h) == above + Path(store, x)
    decreases Rank(store, h)
  {
    if x == h {
      above := [];
    } else {
      var rest := PathSuffix(store, store[h].prev, x);
      above := [h] + rest;
    }
  }

  /** The blocks that both tips build on. */
  ghost predicate Shared(store: Store, a: Hash, b: Hash, x: Hash)
    requires Numbered(store)
  {
    x in Path(store, a) && x in Path(store, b)
  }

  /** `c` is a common ancestor, and every common ancestor lies below it. */
  ghost predicate LowestCommon(store: Store, a: Hash, b: Hash, c: Hash)
    requires Numbered(store)
  {
    Shared(store, a, b, c) && forall x :: Shared(store, a, b, x) ==> x in Path(store, c)
  }

  /** `done` is what was walked of `tip`'s chain, and `at` is where the walk stands. */
  ghost predicate Walked(store: Store, tip: Hash, done: seq<Hash>, at: Hash)
    requires Numbered(store)
  {
    Path(store, tip) == done + Path(store, at)
  }

  lemma WalkStep(store: Store, tip: Hash, done: seq<Hash>, at: Hash)
    requires Numbered(store) && Walked(store, tip, done, at) && at in store
    ensures Walked(store, tip, done + [at], store[at].prev)
    ensures at in Path(store, tip)
  {
    assert done + [at] + Path(store, store[at].prev) == done + Path(store, at);
    assert at in Path(store, at);
  }

  // ----- the walk

  /** Where the walk ends that steps down from the later of two blocks: at one block, or at the end of a chain. */
  ghost function Meet(store: Store, p: Hash, q: Hash): Option<Hash>
    requires Numbered(store)
    decreases Rank(store, p) + Rank(store, q)
  {
    if p !in store || q !in store then None
    else if p == q then Some(p)
    else if store[p].time >= store[q].time then Meet(store, store[p].prev, q)
    else Meet(store, p, store[q].prev)
  }

  /** The chain of `tip` above `c`, tip first. */
  ghost function Above(store: Store, tip: Hash, c: Hash): seq<Hash>
    requires Numbered(store)
  {
    var n := |Path(store, tip)| - |Path(store, c)|;
    if n >= 0 then Path(store, tip)[..n] else []
  }

  /**
   * Whatever the times, a successful walk returns the two chains above the block where it ends. It fails exactly when
   * it ends nowhere or one of those blocks cannot be read.
   */
  method GetBlockChanges(store: Store, readable: set<Hash>, newTip: Hash, forkTip: Hash)
    returns (ok: bool, add: seq<Hash>, remove: seq<Hash>)
    requires Numbered(store)
    ensures ok <==> && Meet(store, newTip, forkTip).Some?
                    && (forall x :: x in Above(store, newTip, Meet(store, newTip, forkTip).value) ==> x in readable)
                    && (forall x :: x in Above(store, forkTip, Meet(store, newTip, forkTip).value) ==> x in readable)
    ensures ok ==> && Walked(store, newTip, add, Meet(store, newTip, forkTip).value)
                   && Walked(store, forkTip, remove, Meet(store, newTip, forkTip).value)
  {
    var p, q := newTip, forkTip;
    add, remove := [], [];
    while p in store && q in store && p != q
      invariant Walked(store, newTip, add, p) && Walked(store, forkTip, remove, q)
      invariant Meet(store, p, q) == Meet(store, newTip, forkTip)
      invariant forall x :: x in add || x in remove ==> x in readable
      decreases Rank(store, p) + Rank(store, q)
    {
      if store[p].time >= store[q].time {
        WalkStep(store, newTip, add, p);
        if p !in readable {
          Unread(store, newTip, add, p, store[p].prev, q);
          return false, add, remove;
        }
        add := add + [p];
        p := store[p].prev;
      } else {
        WalkStep(store, forkTip, remove, q);
        if q !in readable {
          Unread(store, forkTip, remove, q, p, store[q].prev);
          return false, add, remove;
        }
        remove := remove + [q];
        q := store[q].prev;
      }
    }
    ok := p in store && q in store;
    if ok {
      WalkedAbove(store, newTip, add, p);
      WalkedAbove(store, forkTip, remove, p);
    }
  }

  lemma WalkedAbove(store: Store, tip: Hash, done: seq<Hash>, c: Hash)
    requires Numbered(store) && Walked(store, tip, done, c)
    ensures Above(store, tip, c) == done
  {
  }

  /** A block that was stepped over is above the end of the walk. */
  lemma Unread(store: Store, tip: Hash, done: seq<Hash>, at: Hash, p: Hash, q: Hash)
    requires Numbered(store) && at in store && Walked(store, tip, done, at)
    requires p == store[at].prev || q == store[at].prev
    ensures Meet(store, p, q).Some? ==> at in Above(store, tip, Meet(store, p, q).value)
  {
    if Meet(store, p, q).Some? {
      var c := Meet(store, p, q).value;
      MeetShared(store, p, q);
      var above := PathSuffix(store, store[at].prev, c);
      assert Path(store, tip) == (done + [at] + above) + Path(store, c);
      WalkedAbove(store, tip, done + [at] + above, c);
    }
  }

  /** The walk never ends anywhere but at a common ancestor. */
  lemma {:induction false} MeetShared(store: Store, p: Hash, q: Hash)
    requires Numbered(store) && Meet(store, p, q).Some?
    ensures Shared(store, p, q, Meet(store, p, q).value)
    decreases Rank(store, p) + Rank(store, q)
  {
    if p != q {
      if store[p].time >= store[q].time {
        MeetShared(store, store[p].prev, q);
      } else {
        MeetShared(store, p, store[q].prev);
      }
    }
  }

  // ----- which common ancestor

  /** Stepping down from the later of two different blocks loses no common ancestor. */
  lemma StepKeepsCommon(store: Store, p: Hash, q: Hash, x: Hash)
    requires Numbered(store) && Increasing(store) && p in store && q in store && p != q
             && store[p].time >= store[q].time
    ensures p !in Path(store, q)
    ensures Shared(store, p, q, x) <==> Shared(store, store[p].prev, q, x)
  {
    if p in Path(store, q) {
      PathBelow(store, q, p);
      assert false;
    }
  }

  /** With rising times the walk ends at the lowest common ancestor, whenever there is a common ancestor at all. */
  lemma {:induction false} MeetLowest(store: Store, p: Hash, q: Hash)
    requires Numbered(store) && Increasing(store)
    ensures Meet(store, p, q).Some? <==> exists x :: Shared(store, p, q, x)
    ensures Meet(store, p, q).Some? ==> LowestCommon(store, p, q, Meet(store, p, q).value)
    decreases Rank(store, p) + Rank(store, q)
  {
    if p in store && q in store && p != q {
      var p', q' := if store[p].time >= store[q].time then store[p].prev else p,
                    if store[p].time >= store[q].time then q else store[q].prev;
      MeetLowest(store, p', q');
      forall x ensures Shared(store, p, q, x) <==> Shared(store, p', q', x) {
        if store[p].time >= store[q].time {
          StepKeepsCommon(store, p, q, x);
        } else {
          StepKeepsCommon(store, q, p, x);
        }
      }
    } else if p in store && p == q {
      assert Shared(store, p, q, p);
    }
  }

  /** Above `c` no block of the new chain is earlier than `c`, and every block of the old chain is later. */
  ghost predicate NoneEarlier(store: Store, newTip: Hash, forkTip: Hash, c: Hash)
    requires Numbered(store) && c in store
  {
    && (forall x :: x in Above(store, newTip, c) && x in store ==> store[x].time >= store[c].time)
    && (forall x :: x in Above(store, forkTip, c) && x in store ==> store[x].time > store[c].time)
  }

  lemma AboveStep(store: Store, tip: Hash, c: Hash)
    requires Numbered(store) && c in Path(store, tip) && tip != c
    ensures tip in store && c in Path(store, store[tip].prev)
    ensures Above(store, tip, c) == [tip] + Above(store, store[tip].prev, c)
  {
    var above := PathSuffix(store, store[tip].prev, c);
    WalkedAbove(store, store[tip].prev, above, c);
    assert Path(store, tip) == ([tip] + above) + Path(store, c);
  }

  /** A walk that steps past a block does not end there. */
  lemma MeetNotAbove(store: Store, p: Hash, q: Hash, c: Hash)
    requires Numbered(store) && c in store && (p == store[c].prev || q == store[c].prev)
    ensures Meet(store, p, q) != Some(c)
  {
    if Meet(store, p, q) == Some(c) {
      MeetShared(store, p, q);
      PathBelow(store, store[c].prev, c);
      assert false;
    }
  }

  /**
   * Whatever the times, the walk ends at the lowest common ancestor exactly when no block that it has to step over to
   * get there counts as earlier.
   */
  lemma {:induction false} MeetLowestIff(store: Store, p: Hash, q: Hash, c: Hash)
    requires Numbered(store) && LowestCommon(store, p, q, c)
    ensures c in store && (Meet(store, p, q) == Some(c) <==> NoneEarlier(store, p, q, c))
    decreases Rank(store, p) + Rank(store, q)
  {
    PathBelow(store, p, c);
    PathBelow(store, q, c);
    if p == q {
      assert Shared(store, p, q, p);
      PathBelow(store, c, p);
    } else {
      if p != c {
        AboveStep(store, p, c);
      }
      if q != c {
        AboveStep(store, q, c);
      }
      if store[p].time >= store[q].time {
        if p == c {
          MeetNotAbove(store, store[p].prev, q, c);
        } else {
          MeetLowestIff(store, store[p].prev, q, c);
        }
      } else {
        if q == c {
          MeetNotAbove(store, p, store[q].prev, c);
        } else {
          MeetLowestIff(store, p, store[q].prev, c);
        }
      }
    }
  }

  /** The blocks to add and the blocks to remove have none in common exactly when the walk ended at the lowest one. */
  lemma DisjointIffLowest(store: Store, newTip: Hash, forkTip: Hash, add: seq<Hash>, remove: seq<Hash>, c: Hash)
    requires Numbered(store) && c in store && Walked(store, newTip, add, c) && Walked(store, forkTip, remove, c)
    ensures (forall x :: !(x in add && x in remove)) <==> LowestCommon(store, newTip, forkTip, c)
  {
    assert c in Path(store, c);
    forall x | x in add || x in remove ensures x !in Path(store, c) {
      NotBelow(store, newTip, add, c, x);
      NotBelow(store, forkTip, remove, c, x);
    }
    forall x ensures x in add && x in remove <==> Shared(store, newTip, forkTip, x) && x !in Path(store, c) { }
  }

  /** A chain has no block twice. */
  lemma {:induction false} NotBelow(store: Store, tip: Hash, done: seq<Hash>, c: Hash, x: Hash)
    requires Numbered(store) && Walked(store, tip, done, c)
    ensures x in done ==> x !in Path(store, c)
    decreases |done|
  {
    if done != [] {
      assert tip in store && Path(store, tip) == [tip] + Path(store, store[tip].prev);
      assert done[0] == (done + Path(store, c))[0] == tip;
      assert Path(store, store[tip].prev) == Path(store, tip)[1..] == done[1..] + Path(store, c);
      NotBelow(store, store[tip].prev, done[1..], c, x);
      if tip in Path(store, c) {
        assert tip in Path(store, store[tip].prev);
        PathBelow(store, store[tip].prev, tip);
        assert false;
      }
    }
  }

  /**
   * A block that is earlier than its previous block makes the walk step past the lowest common ancestor: the shared
   * block 2 is both added and removed.
   */
  lemma TimeBackOvershoots()
    ensures var store := map[1 := BlockIndex(0, 1, 0), 2 := BlockIndex(1, 2, 10), 3 := BlockIndex(2, 3, 5)];
            && Numbered(store) && LowestCommon(store, 3, 2, 2) && Meet(store, 3, 2) == Some(1)
            && Above(store, 3, 1) == [3, 2] && Above(store, 2, 1) == [2]
  {
    var store := map[1 := BlockIndex(0, 1, 0), 2 := BlockIndex(1, 2, 10), 3 := BlockIndex(2, 3, 5)];
    assert Path(store, 1) == [1];
    assert Path(store, 2) == [2] + Path(store, 1);
    assert Path(store, 3) == [3] + Path(store, 2);
    assert Meet(store, 2, 1) == Meet(store, 1, 1);
    assert Meet(store, 3, 1) == Meet(store, 2, 1);
    assert Meet(store, 3, 2) == Meet(store, 3, 1);
  }
}
