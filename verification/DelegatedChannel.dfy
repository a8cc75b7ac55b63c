/** The gossip of delegate data: the sliding window of anchors and the bitmaps exchanged with peers. */
module DelegatedChannel {
  import opened Common

  /** A 64-bit bitmap, as the set of its bit positions. */
  type Bitmap = set<nat>

  const BITMAP_BITS: nat := 64

  /** A published or distributed data item. */
  type Data = nat

  type DataMap = map<Dest, Data>

  datatype ChainData = ChainData(enrolled: seq<Dest>, distribute: DataMap, publish: DataMap)

  // ----- one anchor's bitmap

  /** Bit `i` says that the data of enrolled delegate `i` is present. */
  ghost function Bits(enrolled: seq<Dest>, data: DataMap): Bitmap
  {
    set i | 0 <= i < |enrolled| && enrolled[i] in data
  }

  method GetBitmap(enrolled: seq<Dest>, data: DataMap) returns (bitmap: Bitmap)
    requires |enrolled| <= BITMAP_BITS
    ensures bitmap == Bits(enrolled, data)
  {
    bitmap := {};
    for i := 0 to |enrolled|
      invariant bitmap == set j | 0 <= j < i && enrolled[j] in data
    {
      if enrolled[i] in data {
        bitmap := bitmap + {i};
      }
    }
  }

  /** Adds the enrolled delegates whose bit is set to `dests`. */
  method GetKnownData(enrolled: seq<Dest>, bitmap: Bitmap, dests: set<Dest>) returns (r: set<Dest>)
    requires |enrolled| <= BITMAP_BITS
    ensures forall d :: d in r <==> d in dests || exists i :: 0 <= i < |enrolled| && i in bitmap && enrolled[i] == d
  {
    r := dests;
    for i := 0 to |enrolled|
      invariant forall d :: d in r <==> d in dests || exists j :: 0 <= j < i && j in bitmap && enrolled[j] == d
    {
      if i in bitmap {
        r := r + {enrolled[i]};
      }
    }
  }

  /** The enrolled delegates that `bitmap` advertises and `data` lacks. */
  ghost function Missing(enrolled: seq<Dest>, data: DataMap, bitmap: Bitmap): set<Dest>
  {
    set i | 0 <= i < |enrolled| && i in bitmap && enrolled[i] !in data :: enrolled[i]
  }

  /** The request: `(ours & theirs) ^ theirs`, turned into delegates. */
  method AskFor(enrolled: seq<Dest>, data: DataMap, theirs: Bitmap) returns (dests: set<Dest>)
    requires |enrolled| <= BITMAP_BITS
    ensures dests == Missing(enrolled, data, theirs)
  {
    var ours := GetBitmap(enrolled, data);
    var both := ours * theirs;
    var want := (both - theirs) + (theirs - both);
    dests := GetKnownData(enrolled, want, {});
  }

  /** Receiving everything asked for makes our bitmap cover what was advertised. */
  lemma AnsweredCovers(enrolled: seq<Dest>, data: DataMap, theirs: Bitmap, data': DataMap)
    requires data.Keys + Missing(enrolled, data, theirs) <= data'.Keys
    requires forall i :: i in theirs ==> i < |enrolled|
    ensures theirs <= Bits(enrolled, data')
  {
    forall i | i in theirs ensures i in Bits(enrolled, data') {
      if enrolled[i] !in data {
        assert enrolled[i] in Missing(enrolled, data, theirs);
      }
    }
  }

  /** And nothing smaller would do. */
  lemma AskedIsNeeded(enrolled: seq<Dest>, data: DataMap, theirs: Bitmap, data': DataMap)
    requires forall i, j :: 0 <= i < j < |enrolled| ==> enrolled[i] != enrolled[j]
    requires theirs <= Bits(enrolled, data')
    ensures Missing(enrolled, data, theirs) <= data'.Keys
  {
    forall d | d in Missing(enrolled, data, theirs) ensures d in data' {
      var i :| 0 <= i < |enrolled| && i in theirs && enrolled[i] == d;
      assert i in Bits(enrolled, data');
    }
  }

  // ----- the window of anchors

  /** The hashes newest first, without the newest `n`. */
  function DropNewest(s: seq<Hash>, n: int): seq<Hash>
  {
    if n <= 0 then s else if n >= |s| then [] else s[n..]
  }

  function Reversed(s: seq<Hash>): seq<Hash>
  {
    if s == [] then [] else [s[|s| - 1]] + Reversed(s[..|s| - 1])
  }

  function Window(s: seq<Hash>, limit: nat): seq<Hash>
  {
    if |s| <= limit then s else s[..limit]
  }

  /** The chain cut back to `start`, or forgotten when it ends below `start`, with `news` appended. */
  function Advance(chain: seq<Hash>, lastHeight: int, start: int, news: seq<Hash>): seq<Hash>
  {
    Reversed(news) + if lastHeight < start then [] else DropNewest(chain, lastHeight - start)
  }

  ghost predicate NoRepeat(s: seq<Hash>)
  {
    forall i, j :: 0 <= i < j < |s| ==> s[i] != s[j]
  }

  lemma {:induction false} ReversedElements(s: seq<Hash>)
    ensures |Reversed(s)| == |s| && forall i :: 0 <= i < |s| ==> Reversed(s)[i] == s[|s| - 1 - i]
  {
    if s != [] {
      ReversedElements(s[..|s| - 1]);
    }
  }

  /** A window that starts like the abstract chain still does after both advance. */
  lemma AdvanceKeepsPrefix(hashes: seq<Hash>, full: seq<Hash>, lastHeight: int, start: int, news: seq<Hash>, limit: nat)
    requires hashes <= full
    ensures Window(Advance(hashes, lastHeight, start, news), limit) <= Advance(full, lastHeight, start, news)
  {
    var a, b := DropNewest(hashes, lastHeight - start), DropNewest(full, lastHeight - start);
    assert a <= b;
  }

  /** A new anchor and the delegates enrolled for it, in the order the source's map lists them. */
  datatype Anchor = Anchor(hash: Hash, delegates: seq<Dest>)

  /** Distribute data for an anchor. */
  datatype Distribution = Distribution(hash: Hash, data: DataMap)

  type AnchorMap = map<Hash, ChainData>

  function HashesOf(anchors: seq<Anchor>): (r: seq<Hash>)
    ensures |r| == |anchors| && forall i :: 0 <= i < |r| ==> r[i] == anchors[i].hash
  {
    seq(|anchors|, i requires 0 <= i < |anchors| => anchors[i].hash)
  }

  ghost function Elements(s: seq<Hash>): set<Hash>
  {
    set h | h in s
  }

  /** The source's map access: an absent anchor starts out empty. */
  function DataAt(m: AnchorMap, h: Hash): ChainData
  {
    if h in m then m[h] else ChainData([], map[], map[])
  }

  /** `std::map::insert` of a range: present keys keep their values. */
  function InsertAll(m: DataMap, more: DataMap): DataMap
  {
    more + m
  }

  function Enrol(m: AnchorMap, a: Anchor): AnchorMap
  {
    var data := DataAt(m, a.hash);
    m[a.hash := data.(enrolled := data.enrolled + a.delegates)]
  }

  function EnrolAll(m: AnchorMap, anchors: seq<Anchor>): AnchorMap
  {
    if anchors == [] then m else Enrol(EnrolAll(m, anchors[..|anchors| - 1]), anchors[|anchors| - 1])
  }

  function Spread(m: AnchorMap, d: Distribution): AnchorMap
  {
    var data := DataAt(m, d.hash);
    m[d.hash := data.(distribute := InsertAll(data.distribute, d.data))]
  }

  function SpreadAll(m: AnchorMap, ds: seq<Distribution>): AnchorMap
  {
    if ds == [] then m else Spread(SpreadAll(m, ds[..|ds| - 1]), ds[|ds| - 1])
  }

  function Publish(m: AnchorMap, h: Hash, publish: DataMap): AnchorMap
  {
    var data := DataAt(m, h);
    m[h := data.(publish := InsertAll(data.publish, publish))]
  }

  /** What is left of `s` once it is cut back to `start`. */
  function Kept(s: seq<Hash>, lastHeight: int, start: int): seq<Hash>
  {
    if lastHeight < start then [] else DropNewest(s, lastHeight - start)
  }

  /** The blocks that cutting back removes, newest first. */
  function Cut(s: seq<Hash>, lastHeight: int, start: int): seq<Hash>
  {
    if lastHeight < start then s
    else s[..|s| - |DropNewest(s, lastHeight - start)|]
  }

  /** The anchor data before the window is trimmed. */
  ghost function Grown(m: AnchorMap, hashes: seq<Hash>, lastHeight: int, start: int,
                       anchors: seq<Anchor>, ds: seq<Distribution>): AnchorMap
  {
    SpreadAll(EnrolAll(if lastHeight < start then map[] else m - Elements(Cut(hashes, lastHeight, start)), anchors), ds)
  }

  /** The anchor data after the window is trimmed: the entries of all dropped hashes are erased. */
  ghost function Trimmed(m: AnchorMap, chain: seq<Hash>, limit: nat): AnchorMap
  {
    m - Elements(chain[|Window(chain, limit)|..])
  }

  ghost function Named(ds: seq<Distribution>): set<Hash>
  {
    set i | 0 <= i < |ds| :: ds[i].hash
  }

  lemma HashesOfElements(anchors: seq<Anchor>)
    requires anchors != []
    ensures Elements(HashesOf(anchors)) == Elements(HashesOf(anchors[..|anchors| - 1])) + {anchors[|anchors| - 1].hash}
  {
    assert HashesOf(anchors) == HashesOf(anchors[..|anchors| - 1]) + [anchors[|anchors| - 1].hash];
  }

  lemma {:induction false} EnrolAllKeys(m: AnchorMap, anchors: seq<Anchor>)
    ensures EnrolAll(m, anchors).Keys == m.Keys + Elements(HashesOf(anchors))
  {
    if anchors != [] {
      EnrolAllKeys(m, anchors[..|anchors| - 1]);
      HashesOfElements(anchors);
    }
  }

  lemma {:induction false} SpreadAllKeys(m: AnchorMap, ds: seq<Distribution>)
    ensures SpreadAll(m, ds).Keys == m.Keys + Named(ds)
  {
    if ds != [] {
      var n := |ds| - 1;
      SpreadAllKeys(m, ds[..n]);
      assert Named(ds) == Named(ds[..n]) + {ds[n].hash};
    }
  }

  lemma CutKeys(m: AnchorMap, hashes: seq<Hash>, lastHeight: int, start: int)
    requires m.Keys == Elements(hashes) && NoRepeat(hashes) && lastHeight >= start
    ensures (m - Elements(Cut(hashes, lastHeight, start))).Keys == Elements(Kept(hashes, lastHeight, start))
  {
    assert hashes == Cut(hashes, lastHeight, start) + Kept(hashes, lastHeight, start);
  }

  lemma AdvanceElements(hashes: seq<Hash>, lastHeight: int, start: int, news: seq<Hash>)
    ensures Elements(Advance(hashes, lastHeight, start, news))
            == Elements(Kept(hashes, lastHeight, start)) + Elements(news)
  {
    ReversedElements(news);
    forall h | h in news ensures h in Reversed(news) {
      var i :| 0 <= i < |news| && news[i] == h;
      assert Reversed(news)[|news| - 1 - i] == h;
    }
  }

  lemma GrownKeys(m: AnchorMap, hashes: seq<Hash>, lastHeight: int, start: int, anchors: seq<Anchor>,
                  ds: seq<Distribution>)
    requires m.Keys == Elements(hashes) && NoRepeat(hashes)
    ensures Grown(m, hashes, lastHeight, start, anchors, ds).Keys
         == Elements(Advance(hashes, lastHeight, start, HashesOf(anchors))) + Named(ds)
  {
    var base := if lastHeight < start then map[] else m - Elements(Cut(hashes, lastHeight, start));
    if lastHeight >= start {
      CutKeys(m, hashes, lastHeight, start);
    }
    EnrolAllKeys(base, anchors);
    SpreadAllKeys(EnrolAll(base, anchors), ds);
    AdvanceElements(hashes, lastHeight, start, HashesOf(anchors));
  }

  lemma EnrolStep(m: AnchorMap, anchors: seq<Anchor>, i: nat)
    requires i < |anchors|
    ensures EnrolAll(m, anchors[..i + 1]) == Enrol(EnrolAll(m, anchors[..i]), anchors[i])
  {
    assert anchors[..i + 1][..i] == anchors[..i];
  }

  lemma ReversedStep(s: seq<Hash>, i: nat)
    requires i < |s|
    ensures Reversed(s[..i + 1]) == [s[i]] + Reversed(s[..i])
  {
    assert s[..i + 1][..i] == s[..i];
  }

  /** Enrolling other anchors does not touch an anchor's data. */
  lemma {:induction false} EnrolAllOther(m: AnchorMap, anchors: seq<Anchor>, h: Hash)
    requires forall i :: 0 <= i < |anchors| ==> anchors[i].hash != h
    ensures DataAt(EnrolAll(m, anchors), h) == DataAt(m, h)
  {
    if anchors != [] {
      EnrolAllOther(m, anchors[..|anchors| - 1], h);
    }
  }

  /** A fresh anchor's enrolled list is its own delegates, in order, and nothing else. */
  lemma {:induction false} FreshAnchorEnrolled(m: AnchorMap, anchors: seq<Anchor>, k: nat)
    requires k < |anchors| && anchors[k].hash !in m
    requires forall i :: 0 <= i < |anchors| && i != k ==> anchors[i].hash != anchors[k].hash
    ensures DataAt(EnrolAll(m, anchors), anchors[k].hash) == ChainData(anchors[k].delegates, map[], map[])
  {
    var n := |anchors| - 1;
    if k == n {
      EnrolAllOther(m, anchors[..n], anchors[k].hash);
    } else {
      FreshAnchorEnrolled(m, anchors[..n], k);
    }
  }

  /** Distribute data never replaces data already held, and never touches the enrolled list. */
  lemma {:induction false} SpreadAllKeeps(m: AnchorMap, ds: seq<Distribution>, h: Hash, d: Dest)
    ensures DataAt(SpreadAll(m, ds), h).enrolled == DataAt(m, h).enrolled
    ensures DataAt(SpreadAll(m, ds), h).publish == DataAt(m, h).publish
    ensures d in DataAt(m, h).distribute
            ==> d in DataAt(SpreadAll(m, ds), h).distribute
                && DataAt(SpreadAll(m, ds), h).distribute[d] == DataAt(m, h).distribute[d]
  {
    if ds != [] {
      SpreadAllKeeps(m, ds[..|ds| - 1], h, d);
    }
  }

  // ----- bulletins

  /** A bulletin: the bitmaps of its anchor, and of other anchors in the window. */
  datatype Bulletin = Bulletin(bmDistribute: Bitmap, bmPublish: Bitmap, bitmaps: seq<(Hash, Bitmap)>)

  /** One advertised item: the anchor, whether it is published or distributed, and the bit. */
  datatype Item = Item(anchor: Hash, published: bool, bit: nat)

  ghost function ItemsOf(anchor: Hash, b: Bulletin): set<Item>
  {
    (set i | i in b.bmDistribute :: Item(anchor, false, i))
    + (set i | i in b.bmPublish :: Item(anchor, true, i))
    + (set k, i | 0 <= k < |b.bitmaps| && i in b.bitmaps[k].1 :: Item(b.bitmaps[k].0, false, i))
  }

  /** The entry of `h`, if it has any bit set, is in the list. */
  ghost predicate Listed(bitmaps: seq<(Hash, Bitmap)>, h: Hash, m: AnchorMap)
  {
    Bits(DataAt(m, h).enrolled, DataAt(m, h).distribute) == {}
    || exists k :: 0 <= k < |bitmaps| && bitmaps[k] == (h, Bits(DataAt(m, h).enrolled, DataAt(m, h).distribute))
  }

  lemma ListedGrows(bitmaps: seq<(Hash, Bitmap)>, e: (Hash, Bitmap), done: seq<Hash>, m: AnchorMap)
    ensures forall h :: h in done && Listed(bitmaps, h, m) ==> Listed(bitmaps + [e], h, m)
  {
    forall h | h in done && Listed(bitmaps, h, m) ensures Listed(bitmaps + [e], h, m) {
      if Bits(DataAt(m, h).enrolled, DataAt(m, h).distribute) != {} {
        var k :| 0 <= k < |bitmaps| && bitmaps[k] == (h, Bits(DataAt(m, h).enrolled, DataAt(m, h).distribute));
        assert (bitmaps + [e])[k] == bitmaps[k];
      }
    }
  }

  /** The distributed items of a bulletin that lists every anchor but its own. */
  lemma BulletinItems(hashes: seq<Hash>, m: AnchorMap, b: Bulletin, anchor: Hash)
    requires anchor in hashes
    requires b.bmDistribute == Bits(DataAt(m, anchor).enrolled, DataAt(m, anchor).distribute)
    requires forall k :: 0 <= k < |b.bitmaps| ==>
               b.bitmaps[k].0 in hashes
               && b.bitmaps[k].1 == Bits(DataAt(m, b.bitmaps[k].0).enrolled, DataAt(m, b.bitmaps[k].0).distribute)
    requires forall h :: h in hashes && h != anchor ==> Listed(b.bitmaps, h, m)
    ensures (set h, i | h in hashes && i in Bits(DataAt(m, h).enrolled, DataAt(m, h).distribute) :: Item(h, false, i))
         == (set i | i in b.bmDistribute :: Item(anchor, false, i))
            + (set k, i | 0 <= k < |b.bitmaps| && i in b.bitmaps[k].1 :: Item(b.bitmaps[k].0, false, i))
  {
    forall h, i | h in hashes && i in Bits(DataAt(m, h).enrolled, DataAt(m, h).distribute)
      ensures h == anchor || exists k :: 0 <= k < |b.bitmaps| && i in b.bitmaps[k].1 && b.bitmaps[k].0 == h
    {
      assert h != anchor ==> Listed(b.bitmaps, h, m);
    }
  }

  // ----- the chain of anchors

  /** The list is the newest part of the abstract chain, and the anchor data has exactly its hashes. */
  ghost predicate WellFormed(m: AnchorMap, hashes: seq<Hash>, full: seq<Hash>, limit: nat)
  {
    hashes <= full && |hashes| <= limit && NoRepeat(hashes) && m.Keys == Elements(hashes)
  }

  ghost function Published(m: AnchorMap, hashes: seq<Hash>, limit: nat, h: Hash, publish: DataMap): AnchorMap
  {
    if |hashes| == limit && 0 < limit && h == hashes[limit - 1] && |publish| > 0 then Publish(m, h, publish) else m
  }

  /** Trimming a chain without repeats leaves the window's data exactly when no other anchor had data. */
  lemma TrimmedKeysIff(grown: AnchorMap, chain: seq<Hash>, named: set<Hash>, limit: nat, h: Hash, publish: DataMap)
    requires grown.Keys == Elements(chain) + named && NoRepeat(chain)
    ensures Published(Trimmed(grown, chain, limit), Window(chain, limit), limit, h, publish).Keys
            == Elements(Window(chain, limit))
            <==> named <= Elements(chain)
  {
    WindowParts(chain, limit);
    var rest := Elements(chain[|Window(chain, limit)|..]);
    assert Trimmed(grown, chain, limit).Keys == Elements(Window(chain, limit)) + (named - rest);
    PublishedKeys(Trimmed(grown, chain, limit), chain, limit, h, publish);
  }

  lemma WindowParts(chain: seq<Hash>, limit: nat)
    requires NoRepeat(chain)
    ensures var window := Window(chain, limit);
            Elements(chain) == Elements(window) + Elements(chain[|window|..])
              && Elements(window) !! Elements(chain[|window|..])
  {
    assert chain == Window(chain, limit) + chain[|Window(chain, limit)|..];
  }

  lemma PublishedKeys(m: AnchorMap, chain: seq<Hash>, limit: nat, h: Hash, publish: DataMap)
    requires Elements(Window(chain, limit)) <= m.Keys
    ensures Published(m, Window(chain, limit), limit, h, publish).Keys == m.Keys
  {
    assert |Window(chain, limit)| == limit && 0 < limit
           ==> Window(chain, limit)[limit - 1] in Elements(Window(chain, limit));
  }

  /**
   * With fresh hashes an update keeps the window well formed exactly when distribute data came for known anchors only.
   */
  lemma UpdateValid(m: AnchorMap, hashes: seq<Hash>, full: seq<Hash>, lastHeight: int, start: int, anchors: seq<Anchor>,
                    ds: seq<Distribution>, publish: DataMap, publishHash: Hash, limit: nat)
    requires WellFormed(m, hashes, full, limit)
    requires NoRepeat(Advance(hashes, lastHeight, start, HashesOf(anchors)))
    ensures WellFormed(NextData(m, hashes, lastHeight, start, anchors, ds, publish, publishHash, limit),
                       Window(Advance(hashes, lastHeight, start, HashesOf(anchors)), limit),
                       Advance(full, lastHeight, start, HashesOf(anchors)), limit)
            <==> Named(ds) <= Elements(Advance(hashes, lastHeight, start, HashesOf(anchors)))
  {
    AdvanceKeepsPrefix(hashes, full, lastHeight, start, HashesOf(anchors), limit);
    GrownKeys(m, hashes, lastHeight, start, anchors, ds);
    TrimmedKeysIff(Grown(m, hashes, lastHeight, start, anchors, ds),
                   Advance(hashes, lastHeight, start, HashesOf(anchors)),
                   Named(ds), limit, publishHash, publish);
  }

  /** No hash of the advanced chain repeats. */
  ghost predicate Fresh(hashes: seq<Hash>, lastHeight: int, start: int, anchors: seq<Anchor>)
  {
    NoRepeat(Advance(hashes, lastHeight, start, HashesOf(anchors)))
  }

  /** Distribute data came for anchors of the advanced chain only. */
  ghost predicate Known(hashes: seq<Hash>, lastHeight: int, start: int, anchors: seq<Anchor>, ds: seq<Distribution>)
  {
    Named(ds) <= Elements(Advance(hashes, lastHeight, start, HashesOf(anchors)))
  }

  /** The same for a state that is the outcome of the update. */
  lemma UpdateKeeps(m: AnchorMap, hashes: seq<Hash>, full: seq<Hash>, lastHeight: int, start: int, anchors: seq<Anchor>,
                    ds: seq<Distribution>, publish: DataMap, publishHash: Hash, limit: nat,
                    m': AnchorMap, hashes': seq<Hash>, full': seq<Hash>)
    requires WellFormed(m, hashes, full, limit) && Fresh(hashes, lastHeight, start, anchors)
    requires m' == NextData(m, hashes, lastHeight, start, anchors, ds, publish, publishHash, limit)
    requires hashes' == Window(Advance(hashes, lastHeight, start, HashesOf(anchors)), limit)
    requires full' == Advance(full, lastHeight, start, HashesOf(anchors))
    ensures WellFormed(m', hashes', full', limit) <==> Known(hashes, lastHeight, start, anchors, ds)
  {
    UpdateValid(m, hashes, full, lastHeight, start, anchors, ds, publish, publishHash, limit);
  }

  /** Distribute data for an anchor that was never listed stays beside the window. */
  lemma UnknownAnchorStays(d: Distribution)
    requires d.hash != 5
    ensures var anchors := [Anchor(5, [])];
            && Fresh([], -1, 0, anchors)
            && !WellFormed(NextData(map[], [], -1, 0, anchors, [d], map[], 0, 2),
                           Window(Advance([], -1, 0, HashesOf(anchors)), 2), Advance([], -1, 0, HashesOf(anchors)), 2)
  {
    var anchors := [Anchor(5, [])];
    assert HashesOf(anchors) == [5];
    assert Advance([], -1, 0, [5]) == [5];
    assert [d][0].hash in Named([d]);
    UpdateValid(map[], [], [], -1, 0, anchors, [d], map[], 0, 2);
  }

  /** The anchor data after one whole update. */
  ghost function NextData(m: AnchorMap, hashes: seq<Hash>, lastHeight: int, start: int, anchors: seq<Anchor>,
                          ds: seq<Distribution>, publish: DataMap, publishHash: Hash, limit: nat): AnchorMap
  {
    var chain := Advance(hashes, lastHeight, start, HashesOf(anchors));
    Published(Trimmed(Grown(m, hashes, lastHeight, start, anchors, ds), chain, limit), Window(chain, limit), limit,
              publishHash, publish)
  }

  class Chain {
    /** CONSENSUS_DISTRIBUTE_INTERVAL */
    const interval: nat
    var hashes: seq<Hash>
    var chainData: AnchorMap
    var lastHeight: int
    /** Every block the updates described, newest first. */
    ghost var full: seq<Hash>

    constructor (interval: nat)
      ensures Valid() && this.interval == interval && full == [] && hashes == [] && lastHeight == -1
    {
      this.interval := interval;
      hashes, chainData, lastHeight, full := [], map[], -1, [];
    }

    ghost predicate Valid()
      reads this
    {
      WellFormed(chainData, hashes, full, interval + 1)
    }

    method Clear()
      modifies this`hashes, this`chainData, this`lastHeight
      ensures hashes == [] && chainData == map[] && lastHeight == -1
    {
      hashes, chainData, lastHeight := [], map[], -1;
    }

    method Update(start: int, anchors: seq<Anchor>, distributions: seq<Distribution>, publish: DataMap,
                  publishHash: Hash)
      modifies this
      ensures full == Advance(old(full), old(lastHeight), start, HashesOf(anchors))
      ensures hashes == Window(Advance(old(hashes), old(lastHeight), start, HashesOf(anchors)), interval + 1)
      ensures lastHeight == start + |anchors|
      ensures chainData == NextData(old(chainData), old(hashes), old(lastHeight), start, anchors, distributions,
                                    publish, publishHash, interval + 1)
      // with fresh hashes the window stays well formed exactly when distribute data came for known anchors only
      ensures old(Valid()) && Fresh(old(hashes), old(lastHeight), start, anchors)
              ==> (Valid() <==> Known(old(hashes), old(lastHeight), start, anchors, distributions))
    {
      ghost var m, was, all, height := chainData, hashes, full, lastHeight;
      full := Advance(full, lastHeight, start, HashesOf(anchors));
      SlideAndPublish(start, anchors, distributions, publish, publishHash);
      if WellFormed(m, was, all, interval + 1) && Fresh(was, height, start, anchors) {
        UpdateKeeps(m, was, all, height, start, anchors, distributions, publish, publishHash, interval + 1,
                    chainData, hashes, full);
      }
    }

    method SlideAndPublish(start: int, anchors: seq<Anchor>, distributions: seq<Distribution>, publish: DataMap,
                           publishHash: Hash)
      modifies this`hashes, this`chainData, this`lastHeight
      ensures hashes == Window(Advance(old(hashes), old(lastHeight), start, HashesOf(anchors)), interval + 1)
      ensures lastHeight == start + |anchors|
      ensures chainData == NextData(old(chainData), old(hashes), old(lastHeight), start, anchors, distributions,
                                    publish, publishHash, interval + 1)
    {
      Slide(start, anchors, distributions);
      PublishOldest(publish, publishHash);
    }

    method PublishOldest(publish: DataMap, publishHash: Hash)
      modifies this`chainData
      ensures chainData == Published(old(chainData), hashes, interval + 1, publishHash, publish)
    {
      if |hashes| == interval + 1 && publishHash == hashes[|hashes| - 1] && |publish| > 0 {
        chainData := Publish(chainData, publishHash, publish);
      }
    }

    method Slide(start: int, anchors: seq<Anchor>, distributions: seq<Distribution>)
      modifies this`hashes, this`chainData, this`lastHeight
      ensures hashes == Window(Advance(old(hashes), old(lastHeight), start, HashesOf(anchors)), interval + 1)
      ensures lastHeight == start + |anchors|
      ensures chainData == Trimmed(Grown(old(chainData), old(hashes), old(lastHeight), start, anchors, distributions),
                                   Advance(old(hashes), old(lastHeight), start, HashesOf(anchors)), interval + 1)
    {
      CutBack(start);
      Append(anchors);
      Distribute(distributions);
      Trim();
    }

    method CutBack(start: int)
      modifies this`hashes, this`chainData, this`lastHeight
      ensures hashes == Kept(old(hashes), old(lastHeight), start) && lastHeight == start
      ensures chainData == if old(lastHeight) < start then map[]
                           else old(chainData) - Elements(Cut(old(hashes), old(lastHeight), start))
    {
      if lastHeight < start {
        Clear();
      }
      ghost var was, data, height := hashes, chainData, lastHeight;
      while lastHeight > start && hashes != []
        invariant 0 <= height - lastHeight <= |was|
        invariant height > start ==> lastHeight >= start
        invariant height <= start ==> lastHeight == height
        invariant hashes == was[height - lastHeight..]
        invariant chainData == data - Elements(was[..height - lastHeight])
      {
        assert was[..height - lastHeight + 1] == was[..height - lastHeight] + [hashes[0]];
        chainData := chainData - {hashes[0]};
        hashes := hashes[1..];
        lastHeight := lastHeight - 1;
      }
      lastHeight := start;
    }

    method Append(anchors: seq<Anchor>)
      modifies this`hashes, this`chainData, this`lastHeight
      ensures hashes == Reversed(HashesOf(anchors)) + old(hashes)
      ensures chainData == EnrolAll(old(chainData), anchors) && lastHeight == old(lastHeight) + |anchors|
    {
      ghost var news := HashesOf(anchors);
      for i := 0 to |anchors|
        invariant hashes == Reversed(news[..i]) + old(hashes)
        invariant chainData == EnrolAll(old(chainData), anchors[..i]) && lastHeight == old(lastHeight) + i
      {
        ReversedStep(news, i);
        EnrolStep(old(chainData), anchors, i);
        chainData := Enrol(chainData, anchors[i]);
        hashes := [anchors[i].hash] + hashes;
        lastHeight := lastHeight + 1;
      }
      assert news[..|anchors|] == news && anchors[..|anchors|] == anchors;
    }

    method Distribute(distributions: seq<Distribution>)
      modifies this`chainData
      ensures chainData == SpreadAll(old(chainData), distributions)
    {
      for i := 0 to |distributions|
        invariant chainData == SpreadAll(old(chainData), distributions[..i])
      {
        assert distributions[..i + 1][..i] == distributions[..i];
        chainData := Spread(chainData, distributions[i]);
      }
      assert distributions[..|distributions|] == distributions;
    }

    method Trim()
      modifies this`hashes, this`chainData
      ensures hashes == Window(old(hashes), interval + 1)
      ensures chainData == Trimmed(old(chainData), old(hashes), interval + 1)
    {
      ghost var was := hashes;
      while |hashes| > interval + 1
        invariant hashes == was[..|hashes|] && |hashes| <= |was|
        invariant |hashes| < |was| ==> |hashes| >= interval + 1
        invariant chainData == old(chainData) - Elements(was[|hashes|..])
      {
        var n := |hashes| - 1;
        assert was[n..] == [hashes[n]] + was[n + 1..];
        chainData := chainData - {hashes[n]};
        hashes := hashes[..n];
      }
    }

    method GetDistributeBitmap(hash: Hash) returns (bitmap: Bitmap)
      requires |DataAt(chainData, hash).enrolled| <= BITMAP_BITS
      ensures bitmap == Bits(DataAt(chainData, hash).enrolled, DataAt(chainData, hash).distribute)
    {
      bitmap := {};
      if hash in chainData {
        bitmap := GetBitmap(chainData[hash].enrolled, chainData[hash].distribute);
      }
    }

    /** Publishing is for the oldest anchor of a full window only. */
    predicate InPublishRange(hash: Hash)
      reads this
    {
      |hashes| == interval + 1 && hash == hashes[|hashes| - 1]
    }

    /** That is the anchor `interval` heights below the newest. */
    lemma PublishRangeIff(hash: Hash)
      requires Valid()
      ensures InPublishRange(hash) <==> HashAt(hashes, lastHeight, lastHeight - interval) == Some(hash)
    {
    }

    method GetPublishBitmap(hash: Hash) returns (bitmap: Bitmap)
      requires |DataAt(chainData, hash).enrolled| <= BITMAP_BITS
      ensures bitmap == if InPublishRange(hash)
                        then Bits(DataAt(chainData, hash).enrolled, DataAt(chainData, hash).publish) else {}
    {
      bitmap := {};
      if |hashes| == interval + 1 && hash == hashes[|hashes| - 1] && hash in chainData {
        bitmap := GetBitmap(chainData[hash].enrolled, chainData[hash].publish);
      }
    }

    method AskForDistribute(hash: Hash, theirs: Bitmap) returns (dests: set<Dest>)
      requires |DataAt(chainData, hash).enrolled| <= BITMAP_BITS
      ensures dests == Missing(DataAt(chainData, hash).enrolled, DataAt(chainData, hash).distribute, theirs)
    {
      dests := {};
      if hash in chainData {
        dests := AskFor(chainData[hash].enrolled, chainData[hash].distribute, theirs);
      }
    }

    method AskForPublish(hash: Hash, theirs: Bitmap) returns (dests: set<Dest>)
      requires |DataAt(chainData, hash).enrolled| <= BITMAP_BITS
      ensures dests == if InPublishRange(hash)
                       then Missing(DataAt(chainData, hash).enrolled, DataAt(chainData, hash).publish, theirs) else {}
    {
      dests := {};
      if |hashes| == interval + 1 && hash == hashes[|hashes| - 1] && hash in chainData {
        dests := AskFor(chainData[hash].enrolled, chainData[hash].publish, theirs);
      }
    }

    /** The first data of a delegate is kept; the answer says whether it was new. */
    method InsertDistributeData(hash: Hash, dest: Dest, data: Data) returns (inserted: bool)
      modifies this`chainData
      ensures old(Valid()) ==> Valid()
      ensures inserted == (hash in old(chainData) && dest !in old(chainData)[hash].distribute)
      ensures chainData == if hash in old(chainData) then Spread(old(chainData), Distribution(hash, map[dest := data]))
                           else old(chainData)
    {
      inserted := false;
      if hash in chainData {
        inserted := dest !in chainData[hash].distribute;
        chainData := Spread(chainData, Distribution(hash, map[dest := data]));
      }
    }

    method InsertPublishData(hash: Hash, dest: Dest, data: Data) returns (inserted: bool)
      modifies this`chainData
      ensures old(Valid()) ==> Valid()
      ensures inserted == (InPublishRange(hash) && hash in old(chainData) && dest !in old(chainData)[hash].publish)
      ensures chainData == if InPublishRange(hash) && hash in old(chainData)
                           then Publish(old(chainData), hash, map[dest := data])
                           else old(chainData)
    {
      inserted := false;
      if |hashes| != interval + 1 || hashes[|hashes| - 1] != hash {
        return;
      }
      if hash in chainData {
        inserted := dest !in chainData[hash].publish;
        chainData := Publish(chainData, hash, map[dest := data]);
      }
    }

    /** Receiving all that was asked for, in any order, makes our bitmap cover the advertised one. */
    method ReceiveDistribute(hash: Hash, theirs: Bitmap, dests: seq<Dest>, data: Dest -> Data)
      requires hash in chainData
      requires forall i :: i in theirs ==> i < |chainData[hash].enrolled|
      requires forall d :: d in dests <==> d in Missing(chainData[hash].enrolled, chainData[hash].distribute, theirs)
      modifies this`chainData
      ensures old(Valid()) ==> Valid()
      ensures hash in chainData && chainData[hash].enrolled == old(chainData)[hash].enrolled
      ensures theirs <= Bits(chainData[hash].enrolled, chainData[hash].distribute)
    {
      for i := 0 to |dests|
        invariant old(Valid()) ==> Valid()
        invariant hash in chainData && chainData[hash].enrolled == old(chainData)[hash].enrolled
        invariant old(chainData)[hash].distribute.Keys <= chainData[hash].distribute.Keys
        invariant forall j :: 0 <= j < i ==> dests[j] in chainData[hash].distribute
      {
        var _ := InsertDistributeData(hash, dests[i], data(dests[i]));
      }
      AnsweredCovers(chainData[hash].enrolled, old(chainData)[hash].distribute, theirs, chainData[hash].distribute);
    }

    method ReceivePublish(hash: Hash, theirs: Bitmap, dests: seq<Dest>, data: Dest -> Data)
      requires InPublishRange(hash) && hash in chainData
      requires forall i :: i in theirs ==> i < |chainData[hash].enrolled|
      requires forall d :: d in dests <==> d in Missing(chainData[hash].enrolled, chainData[hash].publish, theirs)
      modifies this`chainData
      ensures old(Valid()) ==> Valid()
      ensures hash in chainData && chainData[hash].enrolled == old(chainData)[hash].enrolled
      ensures theirs <= Bits(chainData[hash].enrolled, chainData[hash].publish)
    {
      for i := 0 to |dests|
        invariant old(Valid()) ==> Valid()
        invariant hash in chainData && chainData[hash].enrolled == old(chainData)[hash].enrolled
        invariant old(chainData)[hash].publish.Keys <= chainData[hash].publish.Keys
        invariant forall j :: 0 <= j < i ==> dests[j] in chainData[hash].publish
      {
        var _ := InsertPublishData(hash, dests[i], data(dests[i]));
      }
      AnsweredCovers(chainData[hash].enrolled, old(chainData)[hash].publish, theirs, chainData[hash].publish);
    }

    /** Everything the window holds: distribute data of all its anchors, publish data of the oldest. */
    ghost function Held(): set<Item>
      reads this
    {
      (set h, i | h in hashes && i in Bits(DataAt(chainData, h).enrolled, DataAt(chainData, h).distribute)
         :: Item(h, false, i))
      + (set h, i | h in hashes && InPublishRange(h)
         && i in Bits(DataAt(chainData, h).enrolled, DataAt(chainData, h).publish)
           :: Item(h, true, i))
    }

    /** The bulletin is anchored at the oldest block and advertises exactly what the window holds. */
    method MakeBulletin() returns (anchor: Hash, b: Bulletin)
      requires hashes != []
      requires forall h :: h in hashes ==> |DataAt(chainData, h).enrolled| <= BITMAP_BITS
      ensures anchor == hashes[|hashes| - 1]
      ensures ItemsOf(anchor, b) == Held()
    {
      anchor := hashes[|hashes| - 1];
      var distribute := GetDistributeBitmap(anchor);
      var publish := GetPublishBitmap(anchor);
      var bitmaps: seq<(Hash, Bitmap)> := [];
      for i := 0 to |hashes|
        invariant forall k :: 0 <= k < |bitmaps| ==>
                    bitmaps[k].0 in hashes
                    && bitmaps[k].1 == Bits(DataAt(chainData, bitmaps[k].0).enrolled,
                                            DataAt(chainData, bitmaps[k].0).distribute)
        invariant forall j :: 0 <= j < i && hashes[j] != anchor ==> Listed(bitmaps, hashes[j], chainData)
      {
        var hash := hashes[i];
        if hash != anchor {
          var bitmap := GetDistributeBitmap(hash);
          if bitmap != {} {
            ListedGrows(bitmaps, (hash, bitmap), hashes[..i], chainData);
            bitmaps := bitmaps + [(hash, bitmap)];
            assert bitmaps[|bitmaps| - 1].0 == hash;
          }
        }
      }
      b := Bulletin(distribute, publish, bitmaps);
      BulletinItems(hashes, chainData, b, anchor);
      assert publish == {} || InPublishRange(anchor);
    }
  }

  // ----- which hash is at which height

  /** The hash at height `h` of a chain whose newest is at `lastHeight`. */
  ghost function HashAt(chain: seq<Hash>, lastHeight: int, h: int): Option<Hash>
  {
    if 0 <= lastHeight - h < |chain| then Some(chain[lastHeight - h]) else None
  }

  /** Heights up to `start` keep their hash and those above have the new ones; a chain that ends below is dropped. */
  lemma AdvanceAt(chain: seq<Hash>, lastHeight: int, start: int, news: seq<Hash>, h: int)
    ensures HashAt(Advance(chain, lastHeight, start, news), start + |news|, h) ==
            if h > start + |news| then None
            else if h > start then Some(news[h - start - 1])
            else if lastHeight < start then None
            else HashAt(chain, lastHeight, h)
  {
    ReversedElements(news);
  }

  /** Publishing adds data for one anchor, replaces nothing held and touches nothing else. */
  lemma PublishAdds(m: AnchorMap, h: Hash, publish: DataMap, x: Hash, d: Dest)
    ensures DataAt(Publish(m, h, publish), x).enrolled == DataAt(m, x).enrolled
    ensures DataAt(Publish(m, h, publish), x).distribute == DataAt(m, x).distribute
    ensures var before, after := DataAt(m, x).publish, DataAt(Publish(m, h, publish), x).publish;
            && (d in after <==> d in before || (x == h && d in publish))
            && (d in after ==> after[d] == if d in before then before[d] else publish[d])
  {
  }

  /** Published data reaches the oldest anchor of a full window if it is meant for that one, and no other. */
  lemma PublishedWhen(m: AnchorMap, hashes: seq<Hash>, limit: nat, h: Hash, publish: DataMap, x: Hash, d: Dest)
    requires limit > 0 && d in publish && d !in DataAt(m, x).publish
    ensures d in DataAt(Published(m, hashes, limit, h, publish), x).publish <==>
              x == h && |hashes| == limit && HashAt(hashes, limit - 1, 0) == Some(h)
  {
    assert publish != map[];
  }

  lemma TrimmedData(m: AnchorMap, chain: seq<Hash>, limit: nat, x: Hash)
    ensures DataAt(Trimmed(m, chain, limit), x) ==
            if x in Elements(chain[|Window(chain, limit)|..]) then ChainData([], map[], map[]) else DataAt(m, x)
  {
  }
}
