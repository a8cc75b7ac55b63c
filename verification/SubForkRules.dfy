/**
 * When a sub-fork block may follow another (`VerifyBlock`, `VerifySubsidiary`), and what that means for a whole fork.
 */
module SubForkRules {
  import opened Common

  datatype Errno = OK | ERR_BLOCK_TIMESTAMP_OUT_OF_RANGE | ERR_BLOCK_PROOF_OF_STAKE_INVALID | ERR_MISSING_PREV

  /** BLOCK_TARGET_SPACING and EXTENDED_BLOCK_SPACING, in seconds. */
  datatype Spacing = Spacing(target: nat, extended: nat)

  predicate ValidSpacing(sp: Spacing)
  {
    sp.extended > 0 && sp.target > 0 && sp.target % sp.extended == 0
  }

  /** A primary block with the chain below it. */
  datatype Primary = Genesis(time: nat) | Next(hash: Hash, time: nat, prev: Primary)

  /** A primary block's height. */
  function Depth(p: Primary): nat
  {
    if p.Genesis? then 0 else 1 + Depth(p.prev)
  }

  /** The time rule of `VerifyProofOfPoa` and `VerifyDelegatedProofOfStake`, along the chain. */
  ghost predicate ValidPrimary(sp: Spacing, p: Primary)
  {
    p.Next? ==> ValidPrimary(sp, p.prev) && p.time >= p.prev.time + sp.target
  }

  /** `VerifySameChain`: `a` is `b` or one of its ancestors. */
  predicate OnChain(a: Primary, b: Primary)
  {
    a == b || (b.Next? && OnChain(a, b.prev))
  }

  datatype Kind = Origin | Subsidiary | Extended | Vacant

  /**
   * A sub-fork block. `ref` is the primary block it refers to, `agreement` the agreement it claims and `toBallot` says
   * that its minter is the one drawn by the agreement of `ref`.
   */
  datatype SubBlock = SubBlock(kind: Kind, height: nat, time: nat, slot: nat, ref: Primary, agreement: nat,
                               toBallot: bool)

  /** `VerifySubsidiary` */
  function VerifySubsidiary(sp: Spacing, b: SubBlock, prevTime: nat): (err: Errno)
    requires ValidSpacing(sp)
  {
    if b.time <= prevTime then ERR_BLOCK_TIMESTAMP_OUT_OF_RANGE
    else if b.kind.Subsidiary? && b.slot != 0 then ERR_BLOCK_TIMESTAMP_OUT_OF_RANGE
    else if b.kind.Subsidiary? && b.time != b.ref.time then ERR_BLOCK_TIMESTAMP_OUT_OF_RANGE
    else if !b.kind.Subsidiary? && b.slot >= sp.target / sp.extended then ERR_BLOCK_TIMESTAMP_OUT_OF_RANGE
    else if !b.kind.Subsidiary? && b.time <= b.ref.time then ERR_BLOCK_TIMESTAMP_OUT_OF_RANGE
    else if !b.kind.Subsidiary? && b.time >= b.ref.time + sp.target then ERR_BLOCK_TIMESTAMP_OUT_OF_RANGE
    else if !b.kind.Subsidiary? && (b.time - b.ref.time) % sp.extended != 0 then ERR_BLOCK_TIMESTAMP_OUT_OF_RANGE
    else if !b.kind.Subsidiary? && (b.time - b.ref.time) / sp.extended != b.slot then ERR_BLOCK_TIMESTAMP_OUT_OF_RANGE
    else if !b.toBallot then ERR_BLOCK_PROOF_OF_STAKE_INVALID
    else OK
  }

  /** The sub-fork branch of `VerifyBlock` for subsidiary and extended blocks on top of `prev`. */
  function VerifySubFork(sp: Spacing, prev: SubBlock, b: SubBlock): (err: Errno)
    requires ValidSpacing(sp)
  {
    if !prev.kind.Origin? && b.ref != prev.ref && !OnChain(prev.ref, b.ref) then ERR_BLOCK_PROOF_OF_STAKE_INVALID
    else if b.kind.Extended? && (prev.kind.Origin? || prev.kind.Vacant?) then ERR_MISSING_PREV
    else if b.kind.Extended? && b.agreement != prev.agreement then ERR_BLOCK_PROOF_OF_STAKE_INVALID
    else VerifySubsidiary(sp, b, prev.time)
  }

  /** `GetBlockHashByHeightSlot` on the chain of `p`. */
  function AtDepth(p: Primary, h: nat): Option<Primary>
  {
    if Depth(p) == h then Some(p) else if p.Genesis? then None else AtDepth(p.prev, h)
  }

  /** The reference of a block on top of `prev` is on the chain that `prev` refers to. */
  predicate SameChain(prev: SubBlock, b: SubBlock)
  {
    prev.kind.Origin? || b.ref == prev.ref || OnChain(prev.ref, b.ref)
  }

  /**
   * The branch of `VerifyBlock` for vacant blocks; `known` are the times of all primary blocks known at its height.
   * When they all agree with the block's time, its reference is not asked; when there are none, they do.
   */
  function VerifyVacant(prev: SubBlock, b: SubBlock, known: set<nat>): (err: Errno)
  {
    if !b.toBallot then ERR_BLOCK_PROOF_OF_STAKE_INVALID
    else if !SameChain(prev, b) then ERR_BLOCK_PROOF_OF_STAKE_INVALID
    else if known <= {b.time} then OK
    else if AtDepth(b.ref, b.height).None? then ERR_BLOCK_PROOF_OF_STAKE_INVALID
    else if b.time != AtDepth(b.ref, b.height).value.time then ERR_BLOCK_TIMESTAMP_OUT_OF_RANGE
    else OK
  }

  /** `VerifyBlockHeight` */
  predicate HeightFollows(prev: SubBlock, b: SubBlock)
  {
    b.height == if b.kind.Extended? then prev.height else prev.height + 1
  }

  // ----- a fork of subsidiary and extended blocks

  ghost predicate Accepted(sp: Spacing, c: seq<SubBlock>)
    requires ValidSpacing(sp)
  {
    && c != [] && c[0].kind.Origin?
    && forall i :: 1 <= i < |c| ==>
         (c[i].kind.Subsidiary? || c[i].kind.Extended?) && VerifySubFork(sp, c[i - 1], c[i]).OK?
  }

  /** A block's slot is its distance from the referenced block in units of the extended spacing. */
  lemma SlotFormula(sp: Spacing, c: seq<SubBlock>, i: nat)
    requires ValidSpacing(sp) && Accepted(sp, c) && 1 <= i < |c|
    ensures InSpacing(sp, c[i])
  {
    assert VerifySubFork(sp, c[i - 1], c[i]).OK?;
    SlotOf(sp, c[i - 1], c[i]);
  }

  /** The block lies in the spacing of its reference, at its slot. */
  ghost predicate InSpacing(sp: Spacing, b: SubBlock)
    requires ValidSpacing(sp)
  {
    && b.ref.time <= b.time < b.ref.time + sp.target
    && b.slot * sp.extended == b.time - b.ref.time && b.slot < sp.target / sp.extended
  }

  lemma SlotOf(sp: Spacing, prev: SubBlock, b: SubBlock)
    requires ValidSpacing(sp) && (b.kind.Subsidiary? || b.kind.Extended?) && VerifySubFork(sp, prev, b).OK?
    ensures InSpacing(sp, b)
  {
    var d := b.time - b.ref.time;
    if b.kind.Extended? {
      assert d == (d / sp.extended) * sp.extended + d % sp.extended;
    } else {
      DivPositive(sp.target, sp.extended);
    }
  }

  lemma DivPositive(a: nat, b: nat)
    requires a > 0 && b > 0 && a % b == 0
    ensures a / b > 0
  {
    assert a == (a / b) * b + a % b;
  }

  lemma {:induction false} StrictTimes(sp: Spacing, c: seq<SubBlock>, i: nat, j: nat)
    requires ValidSpacing(sp) && Accepted(sp, c) && i < j < |c|
    ensures c[i].time < c[j].time
    decreases j
  {
    assert VerifySubFork(sp, c[j - 1], c[j]).OK?;
    if i < j - 1 {
      StrictTimes(sp, c, i, j - 1);
    }
  }

  lemma {:induction false} OnChainTransitive(a: Primary, b: Primary, c: Primary)
    requires OnChain(a, b) && OnChain(b, c)
    ensures OnChain(a, c)
  {
    if b != c {
      OnChainTransitive(a, b, c.prev);
    }
  }

  lemma {:induction false} OnChainDeeper(a: Primary, b: Primary)
    requires OnChain(a, b)
    ensures a == b || Depth(a) < Depth(b)
  {
    if a != b {
      OnChainDeeper(a, b.prev);
    }
  }

  /** References never move backwards on the primary chain. */
  lemma {:induction false} RefsMonotone(sp: Spacing, c: seq<SubBlock>, i: nat, j: nat)
    requires ValidSpacing(sp) && Accepted(sp, c) && 1 <= i <= j < |c|
    ensures OnChain(c[i].ref, c[j].ref)
    decreases j
  {
    if i < j {
      assert VerifySubFork(sp, c[j - 1], c[j]).OK?;
      RefsMonotone(sp, c, i, j - 1);
      OnChainTransitive(c[i].ref, c[j - 1].ref, c[j].ref);
    }
  }

  /** The blocks of one reference are consecutive. */
  lemma SameRefContiguous(sp: Spacing, c: seq<SubBlock>, i: nat, j: nat, k: nat)
    requires ValidSpacing(sp) && Accepted(sp, c) && 1 <= i <= j <= k < |c| && c[i].ref == c[k].ref
    ensures c[j].ref == c[i].ref
  {
    RefsMonotone(sp, c, i, j);
    RefsMonotone(sp, c, j, k);
    OnChainDeeper(c[i].ref, c[j].ref);
    OnChainDeeper(c[j].ref, c[k].ref);
  }

  /** Blocks of one reference have strictly increasing slots. */
  lemma SlotsIncrease(sp: Spacing, c: seq<SubBlock>, i: nat, j: nat)
    requires ValidSpacing(sp) && Accepted(sp, c) && 1 <= i < j < |c| && c[i].ref == c[j].ref
    ensures c[i].slot < c[j].slot
  {
    StrictTimes(sp, c, i, j);
    SlotFormula(sp, c, i);
    SlotFormula(sp, c, j);
    LaterSlot(sp, c[i], c[j]);
  }

  lemma LaterSlot(sp: Spacing, a: SubBlock, b: SubBlock)
    requires ValidSpacing(sp) && InSpacing(sp, a) && InSpacing(sp, b) && a.ref == b.ref && a.time < b.time
    ensures a.slot < b.slot
  {
    if b.slot <= a.slot {
      MulMonotone(b.slot, a.slot, sp.extended);
    }
  }

  lemma {:induction false} SlotsSpread(sp: Spacing, c: seq<SubBlock>, i: nat, j: nat)
    requires ValidSpacing(sp) && Accepted(sp, c) && 1 <= i <= j < |c| && c[i].ref == c[j].ref
    ensures c[j].slot >= c[i].slot + (j - i)
    decreases j
  {
    if i < j {
      SameRefContiguous(sp, c, i, j - 1, j);
      SlotsSpread(sp, c, i, j - 1);
      SlotsIncrease(sp, c, j - 1, j);
    }
  }

  /** No primary block is referred to by more blocks than it has slots. */
  lemma BlocksPerReference(sp: Spacing, c: seq<SubBlock>, i: nat, j: nat)
    requires ValidSpacing(sp) && Accepted(sp, c) && 1 <= i <= j < |c| && c[i].ref == c[j].ref
    ensures j - i + 1 <= sp.target / sp.extended
  {
    SlotsSpread(sp, c, i, j);
    SlotFormula(sp, c, j);
  }

  // ----- forks with vacant blocks

  lemma {:induction false} AtDepthReach(p: Primary, h: nat)
    ensures AtDepth(p, h).Some? <==> h <= Depth(p)
    ensures AtDepth(p, h).Some? ==> Depth(AtDepth(p, h).value) == h
  {
    if Depth(p) != h && p.Next? {
      AtDepthReach(p.prev, h);
    }
  }

  lemma {:induction false} AtDepthBelow(a: Primary, b: Primary, h: nat)
    requires OnChain(a, b) && h <= Depth(a)
    ensures AtDepth(b, h) == AtDepth(a, h)
  {
    if a != b {
      AtDepthBelow(a, b.prev, h);
      OnChainDeeper(a, b);
    }
  }

  /** Primary blocks are at least a target spacing apart. */
  lemma {:induction false} AtDepthLater(sp: Spacing, p: Primary, h: nat, k: nat)
    requires ValidPrimary(sp, p) && h < k <= Depth(p)
    ensures AtDepth(p, h).Some? && AtDepth(p, k).Some?
    ensures AtDepth(p, h).value.time + sp.target <= AtDepth(p, k).value.time
    decreases p
  {
    if k < Depth(p) {
      AtDepthLater(sp, p.prev, h, k);
    } else {
      AtDepthReach(p.prev, h);
      if h < Depth(p.prev) {
        AtDepthLater(sp, p.prev, h, Depth(p.prev));
      }
      assert AtDepth(p.prev, Depth(p.prev)) == Some(p.prev);
    }
  }

  /** The reference has a primary block at the block's own height. */
  predicate Reached(b: SubBlock)
  {
    b.height <= Depth(b.ref)
  }

  /** The time of that primary block. */
  function TimeAt(b: SubBlock): nat
    requires Reached(b)
  {
    AtDepthReach(b.ref, b.height);
    AtDepth(b.ref, b.height).value.time
  }

  /**
   * One step of a fork. `known` are the times of the primary blocks known at a vacant block's height when it was
   * verified; the primary blocks below its reference are among them.
   */
  ghost predicate Follows(sp: Spacing, prev: SubBlock, b: SubBlock, known: set<nat>)
    requires ValidSpacing(sp)
  {
    && !b.kind.Origin? && HeightFollows(prev, b) && ValidPrimary(sp, b.ref)
    && if b.kind.Vacant? then VerifyVacant(prev, b, known).OK? && (Reached(b) ==> TimeAt(b) in known)
       else VerifySubFork(sp, prev, b).OK?
  }

  /** An origin has the height after its primary parent's and the time of a primary block at that height. */
  ghost predicate Starts(o: SubBlock)
  {
    o.kind.Origin? && o.height >= 1 && Depth(o.ref) == o.height && o.time == o.ref.time
  }

  /** A fork, with what was known at each block's height when the block was verified. */
  ghost predicate Fork(sp: Spacing, c: seq<SubBlock>, known: nat -> set<nat>)
    requires ValidSpacing(sp)
  {
    && c != [] && Starts(c[0])
    && forall i :: 1 <= i < |c| ==> Follows(sp, c[i - 1], c[i], known(i))
  }

  // ----- when a vacant block takes time back

  predicate Timed(b: SubBlock)
  {
    b.kind.Subsidiary? || b.kind.Extended?
  }

  /** A vacant block whose reference reaches its height has the time of the primary block there. */
  lemma ReachedTime(sp: Spacing, prev: SubBlock, b: SubBlock, known: set<nat>)
    requires ValidSpacing(sp) && b.kind.Vacant? && Follows(sp, prev, b, known) && Reached(b)
    ensures b.time == TimeAt(b)
  {
    assert known <= {b.time} ==> TimeAt(b) == b.time;
  }

  /** On a subsidiary or extended block that is later exactly when the block's own reference is not above its height. */
  lemma ReachedLaterIff(sp: Spacing, prev: SubBlock, b: SubBlock)
    requires ValidSpacing(sp) && ValidPrimary(sp, b.ref) && OnChain(prev.ref, b.ref) && Reached(b)
    requires b.height == prev.height + 1 && InSpacing(sp, prev)
    ensures prev.time < TimeAt(b) <==> Depth(prev.ref) <= prev.height
  {
    var d := Depth(prev.ref);
    OnChainDeeper(prev.ref, b.ref);
    AtDepthBelow(prev.ref, b.ref, d);
    assert AtDepth(prev.ref, d) == Some(prev.ref);
    if d < b.height {
      AtDepthLater(sp, b.ref, d, b.height);
    } else if b.height < d {
      AtDepthLater(sp, b.ref, b.height, d);
    }
  }

  /** On an origin, or on a vacant block that was reached too, it always is, if the two references share a chain. */
  lemma ReachedLater(sp: Spacing, prev: SubBlock, b: SubBlock)
    requires ValidSpacing(sp) && ValidPrimary(sp, b.ref) && OnChain(prev.ref, b.ref) && Reached(b)
    requires b.height == prev.height + 1 && Reached(prev) && prev.time == TimeAt(prev)
    ensures prev.time < TimeAt(b)
  {
    AtDepthBelow(prev.ref, b.ref, prev.height);
    AtDepthLater(sp, b.ref, prev.height, b.height);
  }

  /**
   * A vacant block with `b`'s height and reference can be accepted on `prev` and not be later. Where the reference
   * reaches the height, a subsidiary or extended `prev` has its own reference above its height, and another `prev` is
   * not before the primary block there. Elsewhere no primary block is known at the height, or only ones of one time,
   * which is not after `prev`.
   */
  ghost predicate CanTakeTimeBack(prev: SubBlock, b: SubBlock, known: set<nat>)
  {
    if Reached(b) then if Timed(prev) then Depth(prev.ref) > prev.height else TimeAt(b) <= prev.time
    else known == {} || exists t :: t in known && known == {t} && t <= prev.time
  }

  /** The guard is exact for every block to build on, every reference and whatever is known. */
  lemma VacantBackIff(sp: Spacing, prev: SubBlock, b: SubBlock, known: set<nat>)
    requires ValidSpacing(sp) && b.kind.Vacant? && b.toBallot && SameChain(prev, b) && HeightFollows(prev, b)
    requires ValidPrimary(sp, b.ref) && (Reached(b) ==> TimeAt(b) in known) && (Timed(prev) ==> InSpacing(sp, prev))
    ensures (exists t: nat :: t <= prev.time && Follows(sp, prev, b.(time := t), known))
            <==> CanTakeTimeBack(prev, b, known)
  {
    if Reached(b) {
      if Timed(prev) {
        ReachedLaterIff(sp, prev, b);
      }
      AtDepthReach(b.ref, b.height);
      assert Follows(sp, prev, b.(time := TimeAt(b)), known);
      forall t: nat | Follows(sp, prev, b.(time := t), known) ensures t == TimeAt(b) {
        ReachedTime(sp, prev, b.(time := t), known);
      }
    } else {
      AtDepthReach(b.ref, b.height);
      if known == {} {
        assert Follows(sp, prev, b.(time := prev.time), known);
      } else if CanTakeTimeBack(prev, b, known) {
        var t :| t in known && known == {t} && t <= prev.time;
        assert Follows(sp, prev, b.(time := t), known);
      }
      forall t: nat | t <= prev.time && Follows(sp, prev, b.(time := t), known)
        ensures CanTakeTimeBack(prev, b, known)
      {
        assert known == {} || (t in known && known == {t}) by {
          if known != {} {
            var u :| u in known;
            assert u == t;
          }
        }
      }
    }
  }

  /** Whether an accepted vacant block does: its time is its own choice only where nothing at all is known. */
  ghost predicate TakesTimeBack(prev: SubBlock, b: SubBlock, known: set<nat>)
  {
    b.kind.Vacant? && CanTakeTimeBack(prev, b, known) && (!Reached(b) && known == {} ==> b.time <= prev.time)
  }

  lemma StepLaterIff(sp: Spacing, prev: SubBlock, b: SubBlock, known: set<nat>)
    requires ValidSpacing(sp) && Follows(sp, prev, b, known) && (Timed(prev) ==> InSpacing(sp, prev))
    ensures prev.time < b.time <==> !TakesTimeBack(prev, b, known)
  {
    if b.kind.Vacant? && Reached(b) {
      ReachedTime(sp, prev, b, known);
      if Timed(prev) {
        ReachedLaterIff(sp, prev, b);
      }
    } else if b.kind.Vacant? {
      AtDepthReach(b.ref, b.height);
      if known != {} {
        var u :| u in known;
        assert u == b.time && known == {u};
      }
    }
  }

  ghost predicate Rising(c: seq<SubBlock>)
  {
    forall i, j :: 0 <= i < j < |c| ==> c[i].time < c[j].time
  }

  ghost predicate NoTimeBack(c: seq<SubBlock>, known: nat -> set<nat>)
  {
    forall i :: 1 <= i < |c| ==> !TakesTimeBack(c[i - 1], c[i], known(i))
  }

  lemma ForkStepIff(sp: Spacing, c: seq<SubBlock>, known: nat -> set<nat>, i: nat)
    requires ValidSpacing(sp) && Fork(sp, c, known) && 1 <= i < |c|
    ensures c[i - 1].time < c[i].time <==> !TakesTimeBack(c[i - 1], c[i], known(i))
  {
    if i > 1 && Timed(c[i - 1]) {
      assert Follows(sp, c[(i - 1) - 1], c[i - 1], known(i - 1));
      SlotOf(sp, c[i - 2], c[i - 1]);
    }
    StepLaterIff(sp, c[i - 1], c[i], known(i));
  }

  /** Times strictly increase along a fork exactly when no vacant block of it takes time back. */
  lemma ForkTimesIff(sp: Spacing, c: seq<SubBlock>, known: nat -> set<nat>)
    requires ValidSpacing(sp) && Fork(sp, c, known)
    ensures Rising(c) <==> NoTimeBack(c, known)
  {
    if NoTimeBack(c, known) {
      forall i: nat, j: nat | i < j < |c| ensures c[i].time < c[j].time {
        RisesTo(sp, c, known, i, j);
      }
    }
    if Rising(c) {
      forall i: nat | 1 <= i < |c| ensures !TakesTimeBack(c[i - 1], c[i], known(i)) {
        ForkStepIff(sp, c, known, i);
      }
    }
  }

  lemma {:induction false} RisesTo(sp: Spacing, c: seq<SubBlock>, known: nat -> set<nat>, i: nat, j: nat)
    requires ValidSpacing(sp) && Fork(sp, c, known) && NoTimeBack(c, known) && i < j < |c|
    ensures c[i].time < c[j].time
    decreases j
  {
    ForkStepIff(sp, c, known, j);
    if i < j - 1 {
      RisesTo(sp, c, known, i, j - 1);
    }
  }

  /** On such a fork no slot of a reference is used twice, and slots are used in order. */
  lemma ForkSlotsIncrease(sp: Spacing, c: seq<SubBlock>, known: nat -> set<nat>, i: nat, j: nat)
    requires ValidSpacing(sp) && Fork(sp, c, known) && NoTimeBack(c, known) && 1 <= i < j < |c| && c[i].ref == c[j].ref
    requires !c[i].kind.Vacant? && !c[j].kind.Vacant?
    ensures c[i].slot < c[j].slot < sp.target / sp.extended
  {
    assert Follows(sp, c[i - 1], c[i], known(i)) && Follows(sp, c[j - 1], c[j], known(j));
    SlotOf(sp, c[i - 1], c[i]);
    SlotOf(sp, c[j - 1], c[j]);
    RisesTo(sp, c, known, i, j);
    LaterSlot(sp, c[i], c[j]);
  }

  // ----- forks on which a slot is used twice

  /** The primary chain with a block every `step` seconds, up to height `n`. */
  function Steady(n: nat, step: nat): Primary
  {
    if n == 0 then Genesis(0) else Next(n, n * step, Steady(n - 1, step))
  }

  /** `c` is a fork of an origin, a subsidiary block, a vacant one that takes time back, and the same slot again. */
  ghost predicate SlotTwice(sp: Spacing, c: seq<SubBlock>, known: nat -> set<nat>)
  {
    && ValidSpacing(sp) && |c| == 4 && Fork(sp, c, known) && c[2].kind.Vacant? && c[2].time < c[1].time
    && c[1].kind.Subsidiary? && c[3] == c[1].(height := c[3].height)
  }

  lemma SteadyValid(sp: Spacing, n: nat, step: nat)
    requires sp.target <= step
    ensures ValidPrimary(sp, Steady(n, step)) && Depth(Steady(n, step)) == n
  {
  }

  lemma ThreeSteps(sp: Spacing, o: SubBlock, s: SubBlock, v: SubBlock, known: nat -> set<nat>)
    requires ValidSpacing(sp) && Starts(o) && s.kind.Subsidiary? && v.kind.Vacant? && v.time < s.time
    requires Follows(sp, o, s, known(1)) && Follows(sp, s, v, known(2)) && v.ref == s.ref
    ensures SlotTwice(sp, [o, s, v, s.(height := v.height + 1)], known)
  {
    assert Follows(sp, v, s.(height := v.height + 1), known(3));
  }

  /** A subsidiary block whose reference is above its height: nothing ties the two together. */
  lemma VacantReopensSlot()
    ensures var p4 := Steady(4, 60);
            SlotTwice(Spacing(60, 1),
                      [SubBlock(Origin, 1, 60, 0, Steady(1, 60), 0, true), SubBlock(Subsidiary, 2, 240, 0, p4, 7, true),
                       SubBlock(Vacant, 3, 180, 0, p4, 7, true), SubBlock(Subsidiary, 4, 240, 0, p4, 7, true)],
                      (i: nat) => {180})
  {
    var sp, p4 := Spacing(60, 1), Steady(4, 60);
    var o := SubBlock(Origin, 1, 60, 0, Steady(1, 60), 0, true);
    var s, v := SubBlock(Subsidiary, 2, 240, 0, p4, 7, true), SubBlock(Vacant, 3, 180, 0, p4, 7, true);
    SteadyValid(sp, 4, 60);
    SteadyValid(sp, 1, 60);
    assert p4.prev == Steady(3, 60) && Depth(Steady(3, 60)) == 3;
    assert AtDepth(p4, 3) == Some(Steady(3, 60));
    ThreeSteps(sp, o, s, v, (i: nat) => {180});
  }

  /** A primary block of another chain, known at a height that the reference does not reach. */
  lemma OtherChainReopensSlot()
    ensures var a5 := Next(99, 1000, Steady(4, 60));
            SlotTwice(Spacing(60, 1),
                      [SubBlock(Origin, 4, 240, 0, Steady(4, 60), 0, true),
                       SubBlock(Subsidiary, 5, 1000, 0, a5, 7, true),
                       SubBlock(Vacant, 6, 360, 0, a5, 7, true), SubBlock(Subsidiary, 7, 1000, 0, a5, 7, true)],
                      (i: nat) => {360})
  {
    var sp, a5 := Spacing(60, 1), Next(99, 1000, Steady(4, 60));
    SteadyValid(sp, 4, 60);
    ThreeSteps(sp, SubBlock(Origin, 4, 240, 0, Steady(4, 60), 0, true), SubBlock(Subsidiary, 5, 1000, 0, a5, 7, true),
               SubBlock(Vacant, 6, 360, 0, a5, 7, true), (i: nat) => {360});
  }

  /** No primary block is known at the vacant block's height, so it may have any time. */
  lemma UnknownHeightReopensSlot()
    ensures var p2 := Steady(2, 60);
            SlotTwice(Spacing(60, 1),
                      [SubBlock(Origin, 1, 60, 0, Steady(1, 60), 0, true), SubBlock(Subsidiary, 2, 120, 0, p2, 7, true),
                       SubBlock(Vacant, 3, 1, 0, p2, 7, true), SubBlock(Subsidiary, 4, 120, 0, p2, 7, true)],
                      (i: nat) => {})
  {
    var sp, p2 := Spacing(60, 1), Steady(2, 60);
    SteadyValid(sp, 2, 60);
    SteadyValid(sp, 1, 60);
    ThreeSteps(sp, SubBlock(Origin, 1, 60, 0, Steady(1, 60), 0, true), SubBlock(Subsidiary, 2, 120, 0, p2, 7, true),
               SubBlock(Vacant, 3, 1, 0, p2, 7, true), (i: nat) => {});
  }

  // ----- what passes

  /**
   * A subsidiary block passes exactly when it is of the drawn minter, in slot 0 at the time of its reference, later
   * than the block below and on the chain that block refers to.
   */
  lemma SubsidiaryOkIff(sp: Spacing, prev: SubBlock, b: SubBlock)
    requires ValidSpacing(sp) && b.kind.Subsidiary?
    ensures VerifySubFork(sp, prev, b).OK? <==>
              && b.toBallot && b.slot == 0 && b.time == b.ref.time && b.time > prev.time
              && (prev.kind.Origin? || OnChain(prev.ref, b.ref))
  {
  }

  /**
   * An extended block passes exactly when it is of the drawn minter, in its slot within the spacing, later than the
   * block below, which is subsidiary or extended, and has the same agreement and chain as that one.
   */
  lemma ExtendedOkIff(sp: Spacing, prev: SubBlock, b: SubBlock)
    requires ValidSpacing(sp) && b.kind.Extended?
    ensures VerifySubFork(sp, prev, b).OK? <==>
              && b.toBallot && b.slot >= 1 && b.time == b.ref.time + b.slot * sp.extended
              && b.time < b.ref.time + sp.target && b.time > prev.time
              && (prev.kind.Subsidiary? || prev.kind.Extended?)
              && b.agreement == prev.agreement && OnChain(prev.ref, b.ref)
  {
    if VerifySubFork(sp, prev, b).OK? {
      var d := b.time - b.ref.time;
      assert d == (d / sp.extended) * sp.extended + d % sp.extended;
    }
    if b.slot >= 1 && b.time == b.ref.time + b.slot * sp.extended && b.time < b.ref.time + sp.target {
      DivUnique(b.time - b.ref.time, sp.extended, b.slot, 0);
      MulMonotone(1, b.slot, sp.extended);
      if b.slot >= sp.target / sp.extended {
        MulMonotone(sp.target / sp.extended, b.slot, sp.extended);
        assert sp.target == (sp.target / sp.extended) * sp.extended;
      }
    }
  }

  /**
   * A vacant block passes exactly when it is of the drawn minter, on the chain of the block below, and has the one time
   * known at its height, or any if none is, or that of the primary block below its reference.
   */
  lemma VacantOkIff(prev: SubBlock, b: SubBlock, known: set<nat>)
    ensures VerifyVacant(prev, b, known).OK? <==>
              && b.toBallot && (prev.kind.Origin? || OnChain(prev.ref, b.ref))
              && ((forall t :: t in known ==> t == b.time) || (Reached(b) && b.time == TimeAt(b)))
  {
    AtDepthReach(b.ref, b.height);
    assert (forall t :: t in known ==> t == b.time) <==> known <= {b.time};
  }
}
