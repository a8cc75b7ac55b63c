/** Filling a fork up with vacant blocks (`GetLastBlockTime`, `ReplenishSubForkVacant`). */
module VacantFill {
  import opened Common
  import opened SubForkRules

  // ----- the times of the last blocks

  /** A block index with its time and whether it is an extended block. */
  datatype Index = NoIndex | Index(time: nat, extended: bool, prev: Index)

  /** The times of the last blocks, tip first, until `depth` of them were not extended. */
  function LastTimes(index: Index, depth: int): seq<nat>
  {
    if depth <= 0 || index.NoIndex? then []
    else [index.time] + LastTimes(index.prev, if index.extended then depth else depth - 1)
  }

  /** `fork` is missing when the fork is not known. */
  method GetLastBlockTime(fork: Option<Index>, depth: int) returns (ok: bool, vTime: seq<nat>)
    ensures ok == fork.Some?
    ensures ok ==> vTime == LastTimes(fork.value, depth)
  {
    vTime := [];
    if fork.None? {
      return false, vTime;
    }
    var left, index := depth, fork.value;
    while left > 0 && index.Index?
      invariant vTime + LastTimes(index, left) == LastTimes(fork.value, depth)
      decreases index
    {
      vTime := vTime + [index.time];
      if !index.extended {
        left := left - 1;
      }
      index := index.prev;
    }
    ok := true;
  }

  /** The times of all blocks, tip first. */
  ghost function AllTimes(index: Index): seq<nat>
  {
    if index.NoIndex? then [] else [index.time] + AllTimes(index.prev)
  }

  /** How many of the first `k` blocks are not extended. */
  ghost function Plain(index: Index, k: nat): nat
  {
    if index.NoIndex? || k == 0 then 0 else Plain(index.prev, k - 1) + if index.extended then 0 else 1
  }

  /** The times are of the newest blocks, up to the one that makes `depth` of them not extended, or of all. */
  lemma {:induction false} LastTimesAre(index: Index, depth: int)
    ensures var k := |LastTimes(index, depth)|;
            && k <= |AllTimes(index)| && LastTimes(index, depth) == AllTimes(index)[..k]
            && (k < |AllTimes(index)| && depth >= 0 ==> Plain(index, k) == depth)
            && (forall j :: 0 <= j < k ==> Plain(index, j) < depth)
  {
    if depth > 0 && index.Index? {
      var k := |LastTimes(index, depth)|;
      LastTimesAre(index.prev, if index.extended then depth else depth - 1);
      forall j | 0 <= j < k ensures Plain(index, j) < depth {
        assert j > 0 ==> Plain(index, j) == Plain(index.prev, j - 1) + if index.extended then 0 else 1;
      }
    }
  }

  /** A primary chain as block indexes; it has no extended blocks. */
  function IndexOf(p: Primary): Index
  {
    Index(p.time, false, if p.Genesis? then NoIndex else IndexOf(p.prev))
  }

  lemma {:induction false} PrimaryTimesLength(p: Primary, depth: int)
    ensures |LastTimes(IndexOf(p), depth)| ==
            if depth <= 0 then 0 else if depth <= Depth(p) then depth else Depth(p) + 1
  {
    if depth > 0 && p.Next? {
      PrimaryTimesLength(p.prev, depth - 1);
    }
  }

  /** On a primary chain entry `k` is the time of the block `k` heights below the tip. */
  lemma {:induction false} PrimaryTimeAt(p: Primary, depth: int, k: nat)
    requires k < |LastTimes(IndexOf(p), depth)|
    ensures k <= Depth(p) && AtDepth(p, Depth(p) - k).Some?
    ensures LastTimes(IndexOf(p), depth)[k] == AtDepth(p, Depth(p) - k).value.time
  {
    if k == 0 {
      assert AtDepth(p, Depth(p)) == Some(p);
    } else {
      PrimaryTimesLength(p, depth);
      PrimaryTimeAt(p.prev, depth - 1, k - 1);
      assert LastTimes(IndexOf(p), depth)[k] == LastTimes(IndexOf(p.prev), depth - 1)[k - 1];
    }
  }

  // ----- the vacant blocks

  /** A vacant block made by `CreateVacant`. */
  datatype VacantBlock = VacantBlock(hash: Hash, prev: Hash, height: int, time: nat, number: nat)

  /** The blocks are linked from `hash`/`number` at height `last` on, one per height. */
  ghost predicate LinkedVacants(vs: seq<VacantBlock>, hash: Hash, last: int, number: nat)
  {
    forall i :: 0 <= i < |vs| ==>
      && vs[i].height == last + 1 + i && vs[i].number == number + 1 + i
      && vs[i].prev == if i == 0 then hash else vs[i - 1].hash
  }

  /** The time that a vacant block of height `h` gets: as far below the tip as `h` is below the new primary height. */
  ghost predicate GetsTime(tip: Primary, prevHeight: nat, h: int, time: nat)
  {
    var at := Depth(tip) + h - (prevHeight + 1);
    0 <= at < Depth(tip) && AtDepth(tip, at).Some? && time == AtDepth(tip, at).value.time
  }

  lemma TimeRead(tip: Primary, lastHeight: nat, prevHeight: nat, h: nat)
    requires lastHeight < h <= prevHeight
    ensures var times, k := LastTimes(IndexOf(tip), prevHeight + 1 - lastHeight), prevHeight + 1 - h;
            && (k < |times| <==> k <= Depth(tip))
            && (k < |times| ==> GetsTime(tip, prevHeight, h, times[k]))
  {
    PrimaryTimesLength(tip, prevHeight + 1 - lastHeight);
    if prevHeight + 1 - h <= Depth(tip) {
      PrimaryTimeAt(tip, prevHeight + 1 - lastHeight, prevHeight + 1 - h);
    }
  }

  /** `OutOfRange` stands for the source's read past the end of the times. */
  datatype Result = Done | Failed | OutOfRange

  method Fill(tip: Option<Primary>, lastHeight: nat, hash: Hash, number: nat, prevHeight: nat,
              works: nat -> bool, hashOf: nat -> Hash)
    returns (r: Result, vacants: seq<VacantBlock>, hash': Hash, number': nat)
    ensures LinkedVacants(vacants, hash, lastHeight, number)
    ensures hash' == if vacants == [] then hash else vacants[|vacants| - 1].hash
    ensures number' == number + |vacants|
    ensures r.OutOfRange? <==> tip.Some? && lastHeight < prevHeight && prevHeight - lastHeight > Depth(tip.value)
    ensures r.Done? <==> tip.Some? && !r.OutOfRange? && forall h :: lastHeight < h <= prevHeight ==> works(h)
    ensures r.Done? ==> |vacants| == if lastHeight <= prevHeight then prevHeight - lastHeight else 0
    ensures r.OutOfRange? || tip.None? ==> vacants == []
    ensures forall i :: 0 <= i < |vacants| ==> GetsTime(tip.value, prevHeight, vacants[i].height, vacants[i].time)
  {
    hash', number', vacants := hash, number, [];
    var primaryHeight, next := prevHeight + 1, lastHeight + 1;
    var ok, vTime := GetLastBlockTime(if tip.Some? then Some(IndexOf(tip.value)) else None, primaryHeight - lastHeight);
    if !ok {
      return Failed, vacants, hash', number';
    }
    while next < primaryHeight
      invariant next == lastHeight + 1 + |vacants|
      invariant lastHeight <= prevHeight ==> next <= primaryHeight
      invariant lastHeight > prevHeight ==> vacants == []
      invariant vacants != [] ==> prevHeight - lastHeight <= Depth(tip.value)
      invariant LinkedVacants(vacants, hash, lastHeight, number)
      invariant hash' == if vacants == [] then hash else vacants[|vacants| - 1].hash
      invariant number' == number + |vacants|
      invariant forall h :: lastHeight < h < next && h <= prevHeight ==> works(h)
      invariant forall i :: 0 <= i < |vacants| ==> GetsTime(tip.value, prevHeight, vacants[i].height, vacants[i].time)
    {
      TimeRead(tip.value, lastHeight, prevHeight, next);
      if primaryHeight - next >= |vTime| {
        return OutOfRange, vacants, hash', number';
      }
      if !works(next) {
        return Failed, vacants, hash', number';
      }
      var v := VacantBlock(hashOf(next), hash', next, vTime[primaryHeight - next], number' + 1);
      vacants := vacants + [v];
      hash', number', next := v.hash, number' + 1, next + 1;
    }
    r := Done;
  }

  /** That is the time of the primary block of the same height exactly when the tip is the new primary block. */
  lemma TimeMatchesIff(sp: Spacing, tip: Primary, prevHeight: nat, h: nat, time: nat)
    requires ValidSpacing(sp) && ValidPrimary(sp, tip) && h <= Depth(tip) && GetsTime(tip, prevHeight, h, time)
    ensures AtDepth(tip, h).Some?
    ensures time == AtDepth(tip, h).value.time <==> Depth(tip) == prevHeight + 1
  {
    AtDepthReach(tip, h);
    var at := Depth(tip) + h - (prevHeight + 1);
    if at < h {
      AtDepthLater(sp, tip, at, h);
    } else if h < at {
      AtDepthLater(sp, tip, h, at);
    }
  }

  /**
   * One vacant block for each height from the fork's last to the previous primary height. `tip` is the primary chain,
   * if it is found, `works(h)` says that the block of height `h` can be made and dispatched, and `hashOf` names its
   * hash.
   */
  method ReplenishSubForkVacant(ghost sp: Spacing, tip: Option<Primary>, lastHeight: nat, hash: Hash, number: nat,
                                prevHeight: nat, works: nat -> bool, hashOf: nat -> Hash)
    returns (r: Result, vacants: seq<VacantBlock>, hash': Hash, number': nat)
    requires ValidSpacing(sp) && (tip.Some? ==> ValidPrimary(sp, tip.value))
    ensures LinkedVacants(vacants, hash, lastHeight, number)
    ensures hash' == if vacants == [] then hash else vacants[|vacants| - 1].hash
    ensures number' == number + |vacants|
    // the source reads past the times exactly when the gap is longer than the primary chain
    ensures r.OutOfRange? <==> tip.Some? && lastHeight < prevHeight && prevHeight - lastHeight > Depth(tip.value)
    ensures r.Done? <==> tip.Some? && !r.OutOfRange? && forall h :: lastHeight < h <= prevHeight ==> works(h)
    ensures r.Done? ==> |vacants| == if lastHeight <= prevHeight then prevHeight - lastHeight else 0
    ensures r.OutOfRange? || tip.None? ==> vacants == []
    ensures forall i :: 0 <= i < |vacants| ==> GetsTime(tip.value, prevHeight, vacants[i].height, vacants[i].time)
    // the times are those of the primary blocks of the same heights exactly when the tip is the new primary block
    ensures forall i :: 0 <= i < |vacants| && vacants[i].height <= Depth(tip.value) ==>
              && AtDepth(tip.value, vacants[i].height).Some?
              && (vacants[i].time == AtDepth(tip.value, vacants[i].height).value.time
                  <==> Depth(tip.value) == prevHeight + 1)
  {
    r, vacants, hash', number' := Fill(tip, lastHeight, hash, number, prevHeight, works, hashOf);
    forall i | 0 <= i < |vacants| && vacants[i].height <= Depth(tip.value)
      ensures && AtDepth(tip.value, vacants[i].height).Some?
              && (vacants[i].time == AtDepth(tip.value, vacants[i].height).value.time
                  <==> Depth(tip.value) == prevHeight + 1)
    {
      TimeMatchesIff(sp, tip.value, prevHeight, vacants[i].height, vacants[i].time);
    }
  }

  /** With a tip one height too far, the vacant block of height 3 gets the time of height 4. */
  lemma WrongTime()
    ensures var tip := Steady(5, 60);
            GetsTime(tip, 3, 3, 240) && AtDepth(tip, 3).Some? && AtDepth(tip, 3).value.time == 180
  {
    assert Steady(5, 60).prev == Steady(4, 60) && Steady(4, 60).prev == Steady(3, 60);
    assert Depth(Steady(2, 60)) == 2;
    assert Depth(Steady(3, 60)) == 3 && Depth(Steady(4, 60)) == 4 && Depth(Steady(5, 60)) == 5;
    assert AtDepth(Steady(4, 60), 4) == Some(Steady(4, 60)) && AtDepth(Steady(4, 60), 3) == Some(Steady(3, 60));
  }

  /** Vacant blocks that refer to the new primary block pass when it is the tip and the fork refers to its chain. */
  lemma VacantAcceptable(sp: Spacing, tip: Primary, prevHeight: nat, prev: SubBlock, b: SubBlock, known: set<nat>)
    requires ValidSpacing(sp) && ValidPrimary(sp, tip) && Depth(tip) == prevHeight + 1
    requires b.kind.Vacant? && b.ref == tip && b.toBallot && b.height <= prevHeight
    requires GetsTime(tip, prevHeight, b.height, b.time)
    requires prev.kind.Origin? || OnChain(prev.ref, tip)
    ensures VerifyVacant(prev, b, known).OK?
  {
    TimeMatchesIff(sp, tip, prevHeight, b.height, b.time);
  }
}
