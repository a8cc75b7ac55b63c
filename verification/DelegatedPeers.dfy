/** What each peer knows of the delegate data, and which bulletins it is sent. */
module DelegatedPeers {
  import opened Common
  import opened DelegatedChannel

  // ----- the record of a peer

  function BitsAt(m: map<Hash, Bitmap>, h: Hash): Bitmap
  {
    if h in m then m[h] else {}
  }

  /** Bits are recorded only for anchors the peer told us of. */
  function Merge(m: map<Hash, Bitmap>, e: (Hash, Bitmap)): map<Hash, Bitmap>
  {
    if e.0 in m then m[e.0 := m[e.0] + e.1] else m
  }

  function MergeAll(m: map<Hash, Bitmap>, es: seq<(Hash, Bitmap)>): map<Hash, Bitmap>
  {
    if es == [] then m else Merge(MergeAll(m, es[..|es| - 1]), es[|es| - 1])
  }

  /** The first entry of an anchor wins, as `std::map::insert` has it. */
  function FirstOf(es: seq<(Hash, Bitmap)>): map<Hash, Bitmap>
  {
    if es == [] then map[]
    else
      var m := FirstOf(es[..|es| - 1]);
      if es[|es| - 1].0 in m then m else m[es[|es| - 1].0 := es[|es| - 1].1]
  }

  lemma {:induction false} FirstOfSource(es: seq<(Hash, Bitmap)>, h: Hash)
    ensures h in FirstOf(es) <==> exists k :: 0 <= k < |es| && es[k].0 == h
    ensures h in FirstOf(es) ==>
              exists k :: 0 <= k < |es| && es[k] == (h, FirstOf(es)[h]) && forall j :: 0 <= j < k ==> es[j].0 != h
  {
    if es != [] {
      var n := |es| - 1;
      FirstOfSource(es[..n], h);
      assert forall k :: 0 <= k < n ==> es[..n][k] == es[k];
      if h !in FirstOf(es[..n]) && es[n].0 == h {
        assert forall j :: 0 <= j < n ==> es[..n][j].0 != h;
      }
    }
  }

  /** What merging records for an anchor: what was there and the entries' bits, if it is recorded at all. */
  lemma {:induction false} MergeAllBits(m: map<Hash, Bitmap>, es: seq<(Hash, Bitmap)>, h: Hash, i: nat)
    ensures MergeAll(m, es).Keys == m.Keys
    ensures h in m ==> (i in MergeAll(m, es)[h]
                        <==> i in m[h] || exists k :: 0 <= k < |es| && es[k].0 == h && i in es[k].1)
  {
    if es != [] {
      var n := |es| - 1;
      MergeAllBits(m, es[..n], h, i);
      assert forall k :: 0 <= k < n ==> es[..n][k] == es[k];
    }
  }

  /** The peer's record covers the whole bulletin. */
  predicate Covered(anchor: Hash, bmDistribute: Bitmap, bmPublish: Bitmap, bitmaps: map<Hash, Bitmap>, anchorIn: Hash,
                    b: Bulletin)
  {
    anchorIn == anchor && b.bmDistribute <= bmDistribute && b.bmPublish <= bmPublish
    && forall k :: 0 <= k < |b.bitmaps| ==> b.bitmaps[k].1 <= BitsAt(bitmaps, b.bitmaps[k].0)
  }

  /** Merging leaves an entry uncovered exactly when its anchor is not recorded and it has a bit to record. */
  lemma MergeCoversIff(m: map<Hash, Bitmap>, es: seq<(Hash, Bitmap)>)
    ensures (forall k :: 0 <= k < |es| ==> es[k].1 <= BitsAt(MergeAll(m, es), es[k].0))
            <==> forall k :: 0 <= k < |es| ==> es[k].1 == {} || es[k].0 in m
  {
    forall k | 0 <= k < |es| ensures es[k].1 <= BitsAt(MergeAll(m, es), es[k].0) <==> es[k].1 == {} || es[k].0 in m {
      MergeAllBits(m, es, es[k].0, 0);
      if es[k].0 in m {
        forall i | i in es[k].1 ensures i in MergeAll(m, es)[es[k].0] {
          MergeAllBits(m, es, es[k].0, i);
        }
      }
    }
  }

  /** The anchors that are looked up for entries `k` on: all up to the first that is not covered. */
  ghost function LookedUp(m: map<Hash, Bitmap>, es: seq<(Hash, Bitmap)>, k: nat): set<Hash>
    decreases |es| - k
  {
    if k >= |es| then {}
    else {es[k].0} + if es[k].1 <= BitsAt(m, es[k].0) then LookedUp(m, es, k + 1) else {}
  }

  /** Bit by bit: the anchors are the same, and every bit of the bulletin is recorded for its anchor. */
  lemma CoveredIff(anchor: Hash, bmDistribute: Bitmap, bmPublish: Bitmap, bitmaps: map<Hash, Bitmap>, anchorIn: Hash,
                   b: Bulletin)
    ensures Covered(anchor, bmDistribute, bmPublish, bitmaps, anchorIn, b) <==>
              && anchor == anchorIn
              && (forall i :: i in b.bmDistribute ==> i in bmDistribute)
              && (forall i :: i in b.bmPublish ==> i in bmPublish)
              && (forall k, i :: 0 <= k < |b.bitmaps| && i in b.bitmaps[k].1 ==>
                                   b.bitmaps[k].0 in bitmaps && i in bitmaps[b.bitmaps[k].0])
  {
    if forall k, i :: 0 <= k < |b.bitmaps| && i in b.bitmaps[k].1 ==>
                        b.bitmaps[k].0 in bitmaps && i in bitmaps[b.bitmaps[k].0] {
      forall k | 0 <= k < |b.bitmaps| ensures b.bitmaps[k].1 <= BitsAt(bitmaps, b.bitmaps[k].0) { }
    }
  }

  /** An anchor is looked up exactly when all entries before one of its own are covered. */
  lemma {:induction false} LookedUpIff(m: map<Hash, Bitmap>, es: seq<(Hash, Bitmap)>, k: nat, h: Hash)
    requires k <= |es|
    ensures h in LookedUp(m, es, k) <==>
              exists i :: k <= i < |es| && es[i].0 == h && forall j :: k <= j < i ==> es[j].1 <= BitsAt(m, es[j].0)
    decreases |es| - k
  {
    if k < |es| {
      LookedUpIff(m, es, k + 1, h);
      if h in LookedUp(m, es, k) {
        if h == es[k].0 {
          assert k <= k < |es| && es[k].0 == h;
        } else {
          var i :| k + 1 <= i < |es| && es[i].0 == h && forall j :: k + 1 <= j < i ==> es[j].1 <= BitsAt(m, es[j].0);
          assert k <= i;
        }
      }
    }
  }

  class Peer {
    var anchor: Hash
    var bmDistribute: Bitmap
    var bmPublish: Bitmap
    var bitmaps: map<Hash, Bitmap>
    /** Everything this peer advertised to us or was sent by us. */
    ghost var exchanged: set<Item>

    constructor ()
      ensures Valid() && exchanged == {} && anchor == 0 && bmDistribute == {} && bmPublish == {} && bitmaps == map[]
    {
      anchor, bmDistribute, bmPublish, bitmaps, exchanged := 0, {}, {}, map[], {};
    }

    /** The record never claims more than was exchanged. */
    ghost predicate Valid()
      reads this
    {
      && (forall i :: i in bmDistribute ==> Item(anchor, false, i) in exchanged)
      && (forall i :: i in bmPublish ==> Item(anchor, true, i) in exchanged)
      && (forall h, i :: h in bitmaps && i in bitmaps[h] ==> Item(h, false, i) in exchanged)
    }

    ghost predicate Knows(anchorIn: Hash, b: Bulletin)
      reads this
    {
      Covered(anchor, bmDistribute, bmPublish, bitmaps, anchorIn, b)
    }

    /** The recorded anchors once the bulletin has been compared: a look-up creates an empty bitmap. */
    ghost function Recorded(anchorIn: Hash, b: Bulletin): set<Hash>
      reads this
    {
      bitmaps.Keys
      + if anchorIn == anchor && b.bmDistribute <= bmDistribute && b.bmPublish <= bmPublish
        then LookedUp(bitmaps, b.bitmaps, 0) else {}
    }

    method Renew(anchorIn: Hash, b: Bulletin)
      requires Valid()
      modifies this
      ensures Valid() && exchanged == old(exchanged) + ItemsOf(anchorIn, b)
      ensures anchor == anchorIn && bmDistribute == b.bmDistribute && bmPublish == b.bmPublish
      ensures bitmaps == FirstOf(b.bitmaps)
    {
      anchor, bmDistribute, bmPublish, bitmaps := anchorIn, b.bmDistribute, b.bmPublish, map[];
      for k := 0 to |b.bitmaps|
        invariant anchor == anchorIn && bmDistribute == b.bmDistribute && bmPublish == b.bmPublish
        invariant bitmaps == FirstOf(b.bitmaps[..k]) && exchanged == old(exchanged)
      {
        assert b.bitmaps[..k + 1][..k] == b.bitmaps[..k];
        if b.bitmaps[k].0 !in bitmaps {
          bitmaps := bitmaps[b.bitmaps[k].0 := b.bitmaps[k].1];
        }
      }
      assert b.bitmaps[..|b.bitmaps|] == b.bitmaps;
      exchanged := exchanged + ItemsOf(anchorIn, b);
      forall h, i | h in bitmaps && i in bitmaps[h] ensures Item(h, false, i) in exchanged {
        FirstOfSource(b.bitmaps, h);
      }
    }

    method Update(anchorIn: Hash, b: Bulletin)
      requires Valid()
      modifies this
      ensures Valid() && exchanged == old(exchanged) + ItemsOf(anchorIn, b)
      ensures anchor == old(anchor)
      ensures bmDistribute == old(bmDistribute) + if anchor == anchorIn then b.bmDistribute else {}
      ensures bmPublish == old(bmPublish) + if anchor == anchorIn then b.bmPublish else {}
      ensures bitmaps == MergeAll(if anchor == anchorIn then old(bitmaps)
                                  else Merge(old(bitmaps), (anchorIn, b.bmDistribute)), b.bitmaps)
    {
      if anchor == anchorIn {
        bmDistribute := bmDistribute + b.bmDistribute;
        bmPublish := bmPublish + b.bmPublish;
      } else if anchorIn in bitmaps {
        bitmaps := bitmaps[anchorIn := bitmaps[anchorIn] + b.bmDistribute];
      }
      ghost var first := bitmaps;
      exchanged := exchanged + ItemsOf(anchorIn, b);
      assert forall h, i :: h in first && i in first[h] ==> Item(h, false, i) in exchanged;
      MergeEach(b.bitmaps);
      forall h, i | h in bitmaps && i in bitmaps[h] ensures Item(h, false, i) in exchanged {
        MergeAllBits(first, b.bitmaps, h, i);
      }
    }

    method MergeEach(es: seq<(Hash, Bitmap)>)
      modifies this`bitmaps
      ensures bitmaps == MergeAll(old(bitmaps), es)
    {
      for k := 0 to |es|
        invariant bitmaps == MergeAll(old(bitmaps), es[..k])
      {
        assert es[..k + 1][..k] == es[..k];
        if es[k].0 in bitmaps {
          bitmaps := bitmaps[es[k].0 := bitmaps[es[k].0] + es[k].1];
        }
      }
      assert es[..|es|] == es;
    }

    /** Looking an anchor up creates an empty bitmap for it, as the source's map access does. */
    method HaveUnknown(anchorIn: Hash, b: Bulletin) returns (unknown: bool)
      requires Valid()
      modifies this`bitmaps
      ensures Valid()
      ensures unknown == !old(Knows(anchorIn, b))
      ensures bitmaps.Keys == old(Recorded(anchorIn, b))
      ensures forall h :: BitsAt(bitmaps, h) == BitsAt(old(bitmaps), h)
      ensures !unknown ==> ItemsOf(anchorIn, b) <= exchanged
    {
      unknown := true;
      if anchorIn == anchor && b.bmDistribute + bmDistribute == bmDistribute && b.bmPublish + bmPublish == bmPublish {
        assert b.bmDistribute <= bmDistribute && b.bmPublish <= bmPublish;
        unknown := FindUncovered(b.bitmaps);
        if !unknown {
          CoveredExchanged(anchorIn, b);
        }
      } else {
        assert !(b.bmDistribute <= bmDistribute && b.bmPublish <= bmPublish) || anchorIn != anchor;
      }
    }

    method FindUncovered(es: seq<(Hash, Bitmap)>) returns (found: bool)
      requires Valid()
      modifies this`bitmaps
      ensures Valid()
      ensures found <==> exists k :: 0 <= k < |es| && !(es[k].1 <= BitsAt(old(bitmaps), es[k].0))
      ensures bitmaps.Keys == old(bitmaps).Keys + LookedUp(old(bitmaps), es, 0)
      ensures forall h :: BitsAt(bitmaps, h) == BitsAt(old(bitmaps), h)
    {
      var k := 0;
      while k < |es|
        invariant 0 <= k <= |es| && Valid()
        invariant bitmaps.Keys + LookedUp(old(bitmaps), es, k) == old(bitmaps).Keys + LookedUp(old(bitmaps), es, 0)
        invariant forall h :: BitsAt(bitmaps, h) == BitsAt(old(bitmaps), h)
        invariant forall j :: 0 <= j < k ==> es[j].1 <= BitsAt(old(bitmaps), es[j].0)
      {
        var h := es[k].0;
        if h !in bitmaps {
          bitmaps := bitmaps[h := {}];
        }
        assert bitmaps[h] == BitsAt(old(bitmaps), h);
        if es[k].1 + bitmaps[h] != bitmaps[h] {
          return true;
        }
        assert es[k].1 <= bitmaps[h];
        k := k + 1;
      }
      found := false;
    }

    lemma CoveredExchanged(anchorIn: Hash, b: Bulletin)
      requires Valid() && Knows(anchorIn, b)
      ensures ItemsOf(anchorIn, b) <= exchanged
    {
      forall k, i | 0 <= k < |b.bitmaps| && i in b.bitmaps[k].1 ensures Item(b.bitmaps[k].0, false, i) in exchanged {
        assert i in BitsAt(bitmaps, b.bitmaps[k].0);
      }
    }

    /**
     * One peer's turn. The bulletin is held back only when the peer has seen every bit of it; once sent, it will be
     * held back next time exactly when it has the peer's own anchor and each of its bits is for an anchor that was
     * recorded, or was looked up before the first one that is not covered.
     */
    method Push(anchorIn: Hash, b: Bulletin) returns (sent: bool)
      requires Valid()
      modifies this
      ensures Valid()
      ensures sent == !old(Knows(anchorIn, b))
      ensures exchanged == if sent then old(exchanged) + ItemsOf(anchorIn, b) else old(exchanged)
      ensures ItemsOf(anchorIn, b) <= exchanged
      ensures anchor == old(anchor) && bitmaps.Keys == old(Recorded(anchorIn, b))
      ensures sent ==> (Knows(anchorIn, b) <==>
                        && old(anchor) == anchorIn
                        && forall k :: 0 <= k < |b.bitmaps| ==>
                                         b.bitmaps[k].1 == {} || b.bitmaps[k].0 in old(Recorded(anchorIn, b)))
    {
      sent := HaveUnknown(anchorIn, b);
      if sent {
        ghost var touched := bitmaps;
        Update(anchorIn, b);
        MergeCoversIff(if anchor == anchorIn then touched else Merge(touched, (anchorIn, b.bmDistribute)), b.bitmaps);
        MergeAllBits(if anchor == anchorIn then touched else Merge(touched, (anchorIn, b.bmDistribute)), b.bitmaps,
                     0, 0);
      }
    }
  }

  /** A bulletin with another anchor than the peer's is sent every time. */
  method PushTwice(anchor: Hash, other: Hash, b: Bulletin) returns (first: bool, second: bool)
    requires anchor != other
    ensures first && second
  {
    var peer := new Peer();
    peer.Renew(anchor, Bulletin({}, {}, []));
    first := peer.Push(other, b);
    second := peer.Push(other, b);
  }

  /** After a push every peer has seen everything the window holds. */
  method PushBulletin(chain: Chain, peers: seq<Peer>)
    requires forall h :: h in chain.hashes ==> |DataAt(chain.chainData, h).enrolled| <= BITMAP_BITS
    requires forall i, j :: 0 <= i < j < |peers| ==> peers[i] != peers[j]
    requires forall i :: 0 <= i < |peers| ==> peers[i].Valid()
    modifies peers
    ensures forall i :: 0 <= i < |peers| ==> peers[i].Valid()
    ensures chain.hashes != [] ==>
              forall i :: 0 <= i < |peers| ==> peers[i].exchanged == old(peers[i].exchanged) + chain.Held()
    ensures chain.hashes == [] ==> forall i :: 0 <= i < |peers| ==> unchanged(peers[i])
  {
    if chain.hashes == [] || peers == [] {
      return;
    }
    var anchor, b := chain.MakeBulletin();
    PushToAll(peers, anchor, b, chain.Held());
  }

  method PushToAll(peers: seq<Peer>, anchor: Hash, b: Bulletin, ghost items: set<Item>)
    requires items == ItemsOf(anchor, b)
    requires forall i, j :: 0 <= i < j < |peers| ==> peers[i] != peers[j]
    requires forall i :: 0 <= i < |peers| ==> peers[i].Valid()
    modifies peers
    ensures forall i :: 0 <= i < |peers| ==> peers[i].Valid() && peers[i].exchanged == old(peers[i].exchanged) + items
  {
    for n := 0 to |peers|
      invariant forall i :: 0 <= i < |peers| ==> peers[i].Valid()
      invariant forall i :: 0 <= i < n ==> peers[i].exchanged == old(peers[i].exchanged) + items
      invariant forall i :: n <= i < |peers| ==> unchanged(peers[i])
    {
      PushTo(peers[n], anchor, b, items);
    }
  }

  method PushTo(peer: Peer, anchor: Hash, b: Bulletin, ghost items: set<Item>)
    requires items == ItemsOf(anchor, b) && peer.Valid()
    modifies peer
    ensures peer.Valid() && peer.exchanged == old(peer.exchanged) + items
  {
    var _ := peer.Push(anchor, b);
  }
}
