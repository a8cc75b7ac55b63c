/** The sub-fork block scheduler (`ProcessSubFork`, `PreparePiggyback`, `CreateExtended`). */
module SubForkMaker {
  import opened Common
  import opened SubForkRules

  const FORK_LAST_BLOCK_COUNT: int := 30
  const FORK_WAIT_BLOCK_COUNT: int := 6
  const FORK_WAIT_BLOCK_SECT: int := 100000

  // ----- choosing the block to build on

  /** A block of the fork, as a status query reports it. */
  datatype Status = Status(hash: Hash, height: int, time: nat, number: nat)

  /**
   * What the maker learns when a subsidiary task comes up: the fork's last block if it is found and refers to the long
   * chain, the last block of the previous height, and the end of the vacant blocks if replenishing succeeds.
   */
  datatype SubInput = SubInput(last: Option<Status>, onLongChain: bool, atPrevHeight: Option<Status>,
                               replenished: Option<Status>)

  datatype Choice = NoPrev | Wait | Prev(prev: Status, number: nat)

  /** The round: spacing, new primary block, the height and minting type before it, and its agreement. */
  datatype Round = Round(sp: Spacing, ref: Primary, prevHeight: int, prevStake: bool, agreement: nat)

  /** Too far behind: the fork waits for others before it replenishes. `stat` is `mapForkLastStat`. */
  function Patience(prevHeight: int, lastHeight: int, stat: (int, int)): (r: (bool, (int, int)))
    requires lastHeight <= prevHeight
  {
    var stat' := if stat.0 != lastHeight then (lastHeight, prevHeight + 1) else stat;
    (prevHeight + 1 - stat'.1 >= FORK_WAIT_BLOCK_COUNT * ((prevHeight + 1 - lastHeight) / FORK_WAIT_BLOCK_SECT + 1),
     stat')
  }

  function ReplenishedPrev(inp: SubInput): Choice
  {
    if inp.replenished.Some? then Prev(inp.replenished.value, inp.replenished.value.number + 1) else NoPrev
  }

  /**
   * The block to build on, and the fork's wait statistic if it is written. `number` is the prepared block number, one
   * above the fork's last block when the round began.
   */
  function ChoosePrev(rd: Round, inp: SubInput, number: nat, originHeight: int, now: nat, stat: (int, int))
    : (r: (Choice, Option<(int, int)>))
  {
    if inp.last.None? || !inp.onLongChain then (NoPrev, None)
    else
      var last := inp.last.value;
      if last.height > rd.prevHeight then
        (if inp.atPrevHeight.Some? then Prev(inp.atPrevHeight.value, number) else NoPrev, None)
      else if last.height == rd.prevHeight then
        var ready := !rd.prevStake || last.time + rd.sp.extended == rd.ref.time || now >= rd.ref.time;
        (if ready then Prev(last, number) else Wait, None)
      else if last.height != originHeight && last.height < rd.prevHeight + 1 - FORK_LAST_BLOCK_COUNT then
        var (patient, stat') := Patience(rd.prevHeight, last.height, stat);
        (if patient then ReplenishedPrev(inp) else NoPrev, Some(stat'))
      else if !rd.prevStake || now >= rd.ref.time then (ReplenishedPrev(inp), None)
      else (Wait, None)
  }

  // ----- which block is chosen, and when

  /** The fork is found and its last block refers to the long chain. */
  ghost predicate Found(inp: SubInput)
  {
    inp.last.Some? && inp.onLongChain
  }

  /** More than thirty heights behind, and not just begun. */
  ghost predicate FarBehind(rd: Round, last: Status, originHeight: int)
  {
    last.height != originHeight && last.height + 30 < rd.prevHeight + 1
  }

  /** The fork stood still for six heights, and six more for every 100000 that it is behind. */
  ghost predicate StoodStill(rd: Round, last: Status, stat: (int, int))
  {
    stat.0 == last.height && rd.prevHeight + 1 - stat.1 >= 6 * ((rd.prevHeight + 1 - last.height) / 100000 + 1)
  }

  /** Nothing is built before the new primary block's time when the one before it was staked. */
  ghost predicate TooEarly(rd: Round, now: nat)
  {
    rd.prevStake && now < rd.ref.time
  }

  /** What is told of the previous height is of that height. */
  ghost predicate Honest(rd: Round, inp: SubInput)
  {
    && (inp.atPrevHeight.Some? ==> inp.atPrevHeight.value.height == rd.prevHeight)
    && (inp.replenished.Some? ==> inp.replenished.value.height == rd.prevHeight)
  }

  /**
   * The block to build on always is of the previous height: the fork's last block if that is, the last of that height
   * if the fork is ahead, and the end of the vacant blocks if it is behind.
   */
  lemma ChosenIs(rd: Round, inp: SubInput, number: nat, originHeight: int, now: nat, stat: (int, int))
    requires Honest(rd, inp) && ChoosePrev(rd, inp, number, originHeight, now, stat).0.Prev?
    ensures var prev := ChoosePrev(rd, inp, number, originHeight, now, stat).0.prev;
            && Found(inp) && prev.height == rd.prevHeight
            && (prev == inp.last.value <==> inp.last.value.height == rd.prevHeight)
            && (inp.last.value.height > rd.prevHeight ==> Some(prev) == inp.atPrevHeight)
            && (inp.last.value.height < rd.prevHeight ==> Some(prev) == inp.replenished)
  {
  }

  /** When there is a block to build on, and when the fork has to wait; otherwise it is left out of the round. */
  lemma ChosenWhen(rd: Round, inp: SubInput, number: nat, originHeight: int, now: nat, stat: (int, int))
    ensures var choice := ChoosePrev(rd, inp, number, originHeight, now, stat).0;
            && (choice.Prev? <==>
                  && Found(inp)
                  && var last := inp.last.value;
                     if last.height > rd.prevHeight then inp.atPrevHeight.Some?
                     else if last.height == rd.prevHeight then
                       !TooEarly(rd, now) || last.time + rd.sp.extended == rd.ref.time
                     else inp.replenished.Some? && if FarBehind(rd, last, originHeight) then StoodStill(rd, last, stat)
                                                   else !TooEarly(rd, now))
            && (choice.Wait? <==>
                  && Found(inp) && TooEarly(rd, now)
                  && var last := inp.last.value;
                     || (last.height == rd.prevHeight && last.time + rd.sp.extended != rd.ref.time)
                     || (last.height < rd.prevHeight && !FarBehind(rd, last, originHeight)))
  {
  }

  /** The wait statistic is written for a fork far behind only, and notes since when it stands at its height. */
  lemma StatWhen(rd: Round, inp: SubInput, number: nat, originHeight: int, now: nat, stat: (int, int))
    ensures var written := ChoosePrev(rd, inp, number, originHeight, now, stat).1;
            && (written.Some? <==>
                  && Found(inp) && inp.last.value.height < rd.prevHeight
                  && FarBehind(rd, inp.last.value, originHeight))
            && (written.Some? ==>
                  var last := inp.last.value;
                  written.value == if stat.0 == last.height then stat else (last.height, rd.prevHeight + 1))
  {
  }

  // ----- the subsidiary block's number

  /** One branch of the fork, oldest block first. */
  ghost predicate Branch(branch: seq<Status>)
  {
    && branch != []
    && forall i :: 0 <= i < |branch| ==> branch[i].number == branch[0].number + i
  }

  /** What the maker is told are blocks of the branch: its last one, and one of the previous height. */
  ghost predicate Observes(inp: SubInput, branch: seq<Status>, prevHeight: int)
  {
    && branch != []
    && (inp.last.Some? ==> inp.last.value == branch[|branch| - 1])
    && (inp.atPrevHeight.Some? ==> inp.atPrevHeight.value in branch && inp.atPrevHeight.value.height == prevHeight)
  }

  /**
   * The subsidiary block's number is one above its previous block's exactly when the fork was replenished, or the
   * previous block is still the one that was the fork's last when the round began.
   */
  lemma SubsidiaryNumber(rd: Round, inp: SubInput, branch: seq<Status>, start: Status, originHeight: int, now: nat,
                         stat: (int, int))
    requires Branch(branch) && Observes(inp, branch, rd.prevHeight) && start in branch
    requires ChoosePrev(rd, inp, start.number + 1, originHeight, now, stat).0.Prev?
    ensures var c := ChoosePrev(rd, inp, start.number + 1, originHeight, now, stat).0;
            c.number == c.prev.number + 1 <==> inp.last.value.height < rd.prevHeight || c.prev == start
  {
    var c := ChoosePrev(rd, inp, start.number + 1, originHeight, now, stat).0;
    if inp.last.value.height >= rd.prevHeight {
      var i :| 0 <= i < |branch| && branch[i] == c.prev;
      var j :| 0 <= j < |branch| && branch[j] == start;
      assert c.prev.number == start.number <==> i == j;
    }
  }

  /** An extended block that arrives after the round began makes the prepared number stale. */
  lemma StaleNumber()
    ensures var rd := Round(Spacing(60, 1), Steady(6, 60), 5, false, 0);
            var start, late := Status(1, 5, 300, 7), Status(2, 5, 301, 8);
            var inp := SubInput(Some(late), true, None, None);
            && Branch([start, late]) && Observes(inp, [start, late], 5)
            && ChoosePrev(rd, inp, start.number + 1, 1, 360, (0, 0)).0 == Prev(late, 8)
  {
    assert [Status(1, 5, 300, 7), Status(2, 5, 301, 8)][1].number == 8;
  }

  // ----- the queue of tasks

  datatype Task = SubTask(fork: Hash, number: nat) | ExtTask(fork: Hash, time: nat, slot: nat, number: nat, prev: Hash)

  datatype Entry = Entry(fire: nat, task: Task)

  /** A dispatched block of this round; the one of slot 0 is the subsidiary block. */
  datatype Built = Built(time: nat, slot: nat, number: nat, prev: Hash)

  function BuiltBlock(rd: Round, b: Built): SubBlock
  {
    SubBlock(if b.slot == 0 then Subsidiary else Extended, Depth(rd.ref), b.time, b.slot, rd.ref, rd.agreement, true)
  }

  /** The subsidiary block of the round (`PreparePiggyback`), minted by the delegate that was drawn. */
  function SubsidiaryBlock(rd: Round): SubBlock
  {
    SubBlock(Subsidiary, Depth(rd.ref), rd.ref.time, 0, rd.ref, rd.agreement, true)
  }

  /** The extended block a task stands for (`CreateExtended`). */
  function ExtBlock(rd: Round, t: Task): SubBlock
    requires t.ExtTask?
  {
    SubBlock(Extended, Depth(rd.ref), t.time, t.slot, rd.ref, rd.agreement, true)
  }

  /** A dispatched block of slot 0 is the round's subsidiary block, one of a later slot its task's extended block. */
  lemma BuiltIs(rd: Round, b: Built, fork: Hash)
    ensures b.slot == 0 && b.time == rd.ref.time ==> BuiltBlock(rd, b) == SubsidiaryBlock(rd)
    ensures b.slot >= 1 ==> BuiltBlock(rd, b) == ExtBlock(rd, ExtTask(fork, b.time, b.slot, b.number, b.prev))
    ensures SubsidiaryBlock(rd).kind == Subsidiary && BuiltBlock(rd, b).ref == rd.ref
    ensures b.slot >= 1 ==> BuiltBlock(rd, b).kind == Extended
  {
  }

  ghost predicate TaskOk(sp: Spacing, ref: Primary, known: map<Hash, Built>, t: Task)
  {
    t.ExtTask? ==>
      && t.slot >= 1 && t.time == ref.time + t.slot * sp.extended && t.time < ref.time + sp.target
      && t.prev in known && known[t.prev].time < t.time && t.number == known[t.prev].number + 1
  }

  lemma SlotBelow(sp: Spacing, slot: nat)
    requires ValidSpacing(sp) && slot * sp.extended < sp.target
    ensures slot < sp.target / sp.extended
  {
    var q := sp.target / sp.extended;
    assert sp.target == q * sp.extended;
    if slot >= q {
      MulMonotone(q, slot, sp.extended);
    }
  }

  /** Every queued extended block is acceptable on top of its previous block. */
  lemma TaskAcceptable(rd: Round, known: map<Hash, Built>, t: Task)
    requires ValidSpacing(rd.sp) && t.ExtTask? && TaskOk(rd.sp, rd.ref, known, t)
    ensures VerifySubFork(rd.sp, BuiltBlock(rd, known[t.prev]), ExtBlock(rd, t)).OK?
    ensures HeightFollows(BuiltBlock(rd, known[t.prev]), ExtBlock(rd, t)) && t.number == known[t.prev].number + 1
  {
    var d := t.time - rd.ref.time;
    DivUnique(d, rd.sp.extended, t.slot, 0);
    SlotBelow(rd.sp, t.slot);
    assert t.slot * rd.sp.extended >= rd.sp.extended by { MulMonotone(1, t.slot, rd.sp.extended); }
  }

  /**
   * The subsidiary block is acceptable on a block of the previous height exactly when it is later and refers to the
   * chain that the previous block refers to.
   */
  lemma SubsidiaryAcceptable(rd: Round, prev: SubBlock)
    requires ValidSpacing(rd.sp) && Depth(rd.ref) == rd.prevHeight + 1 && prev.height == rd.prevHeight
    ensures HeightFollows(prev, SubsidiaryBlock(rd))
    ensures VerifySubFork(rd.sp, prev, SubsidiaryBlock(rd)).OK? <==>
              prev.time < rd.ref.time && (prev.kind.Origin? || OnChain(prev.ref, rd.ref))
  {
  }

  /** So the subsidiary block of a round passes on the chosen block exactly when that is so of the chosen block. */
  lemma ChosenPasses(rd: Round, inp: SubInput, number: nat, originHeight: int, now: nat, stat: (int, int),
                     prev: SubBlock)
    requires Honest(rd, inp) && ChoosePrev(rd, inp, number, originHeight, now, stat).0.Prev?
    requires ValidSpacing(rd.sp) && Depth(rd.ref) == rd.prevHeight + 1
    requires var s := ChoosePrev(rd, inp, number, originHeight, now, stat).0.prev;
             prev.height == s.height && prev.time == s.time
    ensures HeightFollows(prev, SubsidiaryBlock(rd))
    ensures VerifySubFork(rd.sp, prev, SubsidiaryBlock(rd)).OK? <==>
              && ChoosePrev(rd, inp, number, originHeight, now, stat).0.prev.time < rd.ref.time
              && (prev.kind.Origin? || OnChain(prev.ref, rd.ref))
  {
    ChosenIs(rd, inp, number, originHeight, now, stat);
    SubsidiaryAcceptable(rd, prev);
  }

  /** `multimap::insert`: behind every entry that fires no later. */
  function Insert(q: seq<Entry>, e: Entry): seq<Entry>
  {
    if q == [] || e.fire < q[0].fire then [e] + q else [q[0]] + Insert(q[1..], e)
  }

  lemma {:induction false} InsertElements(q: seq<Entry>, e: Entry)
    ensures forall x :: x in Insert(q, e) <==> x in q || x == e
  {
    if q != [] && e.fire >= q[0].fire {
      InsertElements(q[1..], e);
      assert q == [q[0]] + q[1..];
    }
  }

  /** The queue is in the order of its times. */
  ghost predicate Sorted(q: seq<Entry>)
  {
    forall i, j :: 0 <= i < j < |q| ==> q[i].fire <= q[j].fire
  }

  /** A new entry goes behind all that fire no later and before all others, so the queue stays in order. */
  lemma {:induction false} InsertAt(q: seq<Entry>, e: Entry) returns (i: nat)
    requires Sorted(q)
    ensures i <= |q| && Insert(q, e) == q[..i] + [e] + q[i..]
    ensures (forall j :: 0 <= j < i ==> q[j].fire <= e.fire) && (forall j :: i <= j < |q| ==> e.fire < q[j].fire)
  {
    if q == [] || e.fire < q[0].fire {
      i := 0;
    } else {
      var k := InsertAt(q[1..], e);
      i := k + 1;
      assert q[..i] == [q[0]] + q[1..][..k] && q[i..] == q[1..][k..];
    }
  }

  lemma InsertSorted(q: seq<Entry>, e: Entry)
    requires Sorted(q)
    ensures Sorted(Insert(q, e))
  {
    var i := InsertAt(q, e);
    var r := Insert(q, e);
    forall j, k | 0 <= j < k < |r| ensures r[j].fire <= r[k].fire {
      assert r[j] == if j < i then q[j] else if j == i then e else q[j - 1];
      assert r[k] == if k < i then q[k] else if k == i then e else q[k - 1];
    }
  }

  // ----- how long the queue can live

  /** What is left of a task: seconds of its primary block's spacing, and for a subsidiary also the wait before it. */
  ghost function Remaining(sp: Spacing, ref: Primary, e: Entry): nat
  {
    match e.task
    case SubTask(_, _) => sp.target + 1 + if e.fire < ref.time then ref.time - e.fire else 0
    case ExtTask(_, time, _, _, _) => if time < ref.time + sp.target then ref.time + sp.target - time else 0
  }

  ghost function TotalRemaining(sp: Spacing, ref: Primary, q: seq<Entry>): nat
  {
    if q == [] then 0 else Remaining(sp, ref, q[0]) + TotalRemaining(sp, ref, q[1..])
  }

  lemma {:induction false} InsertRemaining(sp: Spacing, ref: Primary, q: seq<Entry>, e: Entry)
    ensures TotalRemaining(sp, ref, Insert(q, e)) == TotalRemaining(sp, ref, q) + Remaining(sp, ref, e)
  {
    if q == [] || e.fire < q[0].fire {
      assert ([e] + q)[1..] == q;
    } else {
      InsertRemaining(sp, ref, q[1..], e);
      assert ([q[0]] + Insert(q[1..], e))[1..] == Insert(q[1..], e);
    }
  }

  /**
   * The next extended task after a block or a skipped slot at `time`, if the spacing and the clock leave room
   * (`CreateExtended`).
   */
  function NextTask(rd: Round, fork: Hash, prev: Hash, time: nat, number: nat, slot: nat, clock: nat): Option<Task>
  {
    if time + rd.sp.extended < rd.ref.time + rd.sp.target && clock < rd.ref.time + rd.sp.target then
      Some(ExtTask(fork, time + rd.sp.extended, slot + 1, number + 1, prev))
    else None
  }

  /** There is a next slot while it and the clock are within the spacing, and it is the following one. */
  lemma NextTaskWhen(rd: Round, fork: Hash, prev: Hash, time: nat, number: nat, slot: nat, clock: nat)
    ensures var next := NextTask(rd, fork, prev, time, number, slot, clock);
            var end := rd.ref.time + rd.sp.target;
            && (next.None? <==> end <= time + rd.sp.extended || end <= clock)
            && (next.Some? ==> next.value.ExtTask? && next.value.fork == fork && next.value.prev == prev
                               && next.value.time - time == rd.sp.extended
                               && next.value.number - number == next.value.slot - slot == 1)
  {
  }

  lemma NextTaskOk(rd: Round, known: map<Hash, Built>, fork: Hash, prev: Hash, time: nat, number: nat, slot: nat,
                   clock: nat)
    requires ValidSpacing(rd.sp) && prev in known && known[prev].number == number && known[prev].time <= time
    requires time == rd.ref.time + slot * rd.sp.extended
    requires NextTask(rd, fork, prev, time, number, slot, clock).Some?
    ensures TaskOk(rd.sp, rd.ref, known, NextTask(rd, fork, prev, time, number, slot, clock).value)
    ensures slot + 1 < rd.sp.target / rd.sp.extended
  {
    assert (slot + 1) * rd.sp.extended == slot * rd.sp.extended + rd.sp.extended;
    SlotBelow(rd.sp, slot + 1);
  }

  // ----- the scheduler

  /** What the outside world answers in one round of the loop. */
  datatype Step = Step(clock: nat, sub: SubInput, success: bool, later: nat)

  /** At most one task per fork. */
  ghost predicate OnePerFork(q: seq<Entry>)
  {
    forall i, j :: 0 <= i < j < |q| ==> q[i].task.fork != q[j].task.fork
  }

  lemma {:induction false} InsertOnePerFork(q: seq<Entry>, e: Entry)
    requires OnePerFork(q) && forall x :: x in q ==> x.task.fork != e.task.fork
    ensures OnePerFork(Insert(q, e))
  {
    if q != [] && e.fire >= q[0].fire {
      InsertOnePerFork(q[1..], e);
      InsertElements(q[1..], e);
      var r := Insert(q[1..], e);
      forall j | 0 <= j < |r| ensures r[j].task.fork != q[0].task.fork {
        assert r[j] in r;
        if r[j] != e {
          var k :| 0 <= k < |q[1..]| && q[1..][k] == r[j];
          assert q[k + 1] == r[j];
        } else {
          assert q[0] in q;
        }
      }
    } else {
      forall j | 0 <= j < |q| ensures q[j].task.fork != e.task.fork {
        assert q[j] in q;
      }
    }
  }

  /** Each task counts the extended tasks made for its fork so far. */
  ghost predicate Counted(q: seq<Entry>, made: map<Hash, nat>)
  {
    forall e :: e in q ==> e.task.fork in made && made[e.task.fork] == if e.task.ExtTask? then e.task.slot else 0
  }

  ghost predicate TasksOk(rd: Round, known: map<Hash, Built>, held: set<Task>, q: seq<Entry>)
  {
    forall e :: e in q ==> TaskOk(rd.sp, rd.ref, known, e.task) && (e.task.ExtTask? ==> e.task in held)
  }

  lemma Pop(rd: Round, known: map<Hash, Built>, held: set<Task>, made: map<Hash, nat>, q: seq<Entry>)
    requires q != [] && TasksOk(rd, known, held, q) && OnePerFork(q) && Counted(q, made)
    ensures TasksOk(rd, known, held, q[1..]) && OnePerFork(q[1..]) && Counted(q[1..], made)
    ensures forall x :: x in q[1..] ==> x.task.fork != q[0].task.fork
    ensures q[0].task.fork in made && made[q[0].task.fork] == if q[0].task.ExtTask? then q[0].task.slot else 0
    ensures TotalRemaining(rd.sp, rd.ref, q) == Remaining(rd.sp, rd.ref, q[0]) + TotalRemaining(rd.sp, rd.ref, q[1..])
  {
    assert q == [q[0]] + q[1..];
    assert q[0] in q;
  }

  lemma Push(rd: Round, known: map<Hash, Built>, held: set<Task>, made: map<Hash, nat>, q: seq<Entry>, e: Entry)
    requires TasksOk(rd, known, held, q) && OnePerFork(q) && Counted(q, made) && TaskOk(rd.sp, rd.ref, known, e.task)
    requires forall x :: x in q ==> x.task.fork != e.task.fork
    ensures var held' := if e.task.ExtTask? then held + {e.task} else held;
            var made' := made[e.task.fork := if e.task.ExtTask? then e.task.slot else 0];
            TasksOk(rd, known, held', Insert(q, e)) && OnePerFork(Insert(q, e)) && Counted(Insert(q, e), made')
  {
    InsertElements(q, e);
    InsertOnePerFork(q, e);
  }

  // ----- no slot is passed over

  ghost predicate HasExtended(q: seq<Entry>, fork: Hash)
  {
    exists e :: e in q && e.task.ExtTask? && e.task.fork == fork
  }

  /** A fork with a subsidiary block has a task queued, or had one for every slot, or the clock ran past the spacing. */
  ghost predicate Offered(started: set<Hash>, made: map<Hash, nat>, q: seq<Entry>, late: bool, slots: nat)
  {
    forall f :: f in started ==> f in made && (late || made[f] + 1 == slots || HasExtended(q, f))
  }

  ghost function Requeued(q: seq<Entry>, next: Option<Entry>): seq<Entry>
    requires q != []
  {
    if next.Some? then Insert(q[1..], next.value) else q[1..]
  }

  ghost function Recounted(made: map<Hash, nat>, next: Option<Entry>): map<Hash, nat>
  {
    if next.None? then made
    else made[next.value.task.fork := if next.value.task.ExtTask? then next.value.task.slot else 0]
  }

  lemma OfferedStep(started: set<Hash>, made: map<Hash, nat>, q: seq<Entry>, late: bool, late': bool, slots: nat,
                    next: Option<Entry>, starts: bool)
    requires q != [] && Offered(started, made, q, late, slots) && OnePerFork(q) && Counted(q, made) && (late ==> late')
    requires next.Some? ==> next.value.task.fork == q[0].task.fork
    requires starts || q[0].task.ExtTask? ==>
               late' || (next.Some? && next.value.task.ExtTask?) || (next.None? && made[q[0].task.fork] + 1 == slots)
    ensures Offered(if starts then started + {q[0].task.fork} else started, Recounted(made, next), Requeued(q, next),
                    late', slots)
  {
    var f0, q' := q[0].task.fork, Requeued(q, next);
    assert q == [q[0]] + q[1..] && q[0] in q;
    if next.Some? {
      InsertElements(q[1..], next.value);
      assert next.value in q';
    }
    forall f | f in started && f != f0 && HasExtended(q, f) ensures HasExtended(q', f) {
      var e :| e in q && e.task.ExtTask? && e.task.fork == f;
      assert e in q[1..];
    }
    if q[0].task.SubTask? {
      assert !HasExtended(q, f0);
    }
  }

  /** When no further task fits into the spacing, the slot was the last one. */
  lemma LastSlot(rd: Round, fork: Hash, prev: Hash, time: nat, number: nat, slot: nat, clock: nat)
    requires ValidSpacing(rd.sp) && time == rd.ref.time + slot * rd.sp.extended && slot < rd.sp.target / rd.sp.extended
    requires clock < rd.ref.time + rd.sp.target && NextTask(rd, fork, prev, time, number, slot, clock).None?
    ensures slot + 1 == rd.sp.target / rd.sp.extended
  {
    var n := rd.sp.target / rd.sp.extended;
    assert rd.sp.target == n * rd.sp.extended;
    assert (slot + 1) * rd.sp.extended == slot * rd.sp.extended + rd.sp.extended;
    assert n * rd.sp.extended == (slot + 1) * rd.sp.extended + (n - (slot + 1)) * rd.sp.extended;
    if slot + 1 < n {
      MulMonotone(1, n - (slot + 1), rd.sp.extended);
    }
  }

  function EntryOf(next: Option<Task>): Option<Entry>
  {
    if next.Some? && next.value.ExtTask? then Some(Entry(next.value.time, next.value)) else None
  }

  lemma ContinueOffers(rd: Round, started: set<Hash>, made: map<Hash, nat>, q: seq<Entry>, late: bool,
                       next: Option<Task>, prev: Hash, time: nat, number: nat, slot: nat, clock: nat)
    requires ValidSpacing(rd.sp) && q != [] && OnePerFork(q) && Counted(q, made)
    requires Offered(started, made, q, late, rd.sp.target / rd.sp.extended)
    requires slot == (if q[0].task.ExtTask? then q[0].task.slot else 0) && slot < rd.sp.target / rd.sp.extended
    requires time == rd.ref.time + slot * rd.sp.extended
    requires next == NextTask(rd, q[0].task.fork, prev, time, number, slot, clock)
    ensures Offered(started + {q[0].task.fork}, Recounted(made, EntryOf(next)), Requeued(q, EntryOf(next)),
                    late || clock >= rd.ref.time + rd.sp.target, rd.sp.target / rd.sp.extended)
  {
    var late' := late || clock >= rd.ref.time + rd.sp.target;
    assert q[0] in q;
    if next.None? && !late' {
      LastSlot(rd, q[0].task.fork, prev, time, number, slot, clock);
    }
    OfferedStep(started, made, q, late, late', rd.sp.target / rd.sp.extended, EntryOf(next), true);
  }

  class Maker {
    const rd: Round
    var queue: seq<Entry>
    var nextHash: Hash
    var lastStat: map<Hash, (int, int)>
    /** The blocks dispatched in this round, every extended task ever queued, and how many there were per fork. */
    ghost var known: map<Hash, Built>
    ghost var held: set<Task>
    ghost var made: map<Hash, nat>
    /** The forks that got a subsidiary block, and whether the clock was seen past the spacing. */
    ghost var started: set<Hash>
    ghost var late: bool

    /** One subsidiary task per allowed fork, due at the referenced block's time (`PreparePiggyback`). */
    constructor (rd: Round, forks: seq<Hash>, starts: map<Hash, Status>, lastStat: map<Hash, (int, int)>)
      requires ValidSpacing(rd.sp)
      requires (forall f :: f in forks ==> f in starts) && forall i, j :: 0 <= i < j < |forks| ==> forks[i] != forks[j]
      ensures Valid() && Offers() && this.rd == rd && started == {} && !late
      ensures |queue| == |forks|
      ensures forall i :: 0 <= i < |forks| ==>
                            queue[i] == Entry(rd.ref.time, SubTask(forks[i], starts[forks[i]].number + 1))
    {
      this.rd := rd;
      queue := seq(|forks|, i requires 0 <= i < |forks| =>
        Entry(rd.ref.time, SubTask(forks[i], starts[forks[i]].number + 1)));
      nextHash, this.lastStat, known, held, started, late := 0, lastStat, map[], {}, {}, false;
      made := map f | f in forks :: 0;
      new;
      DivPositive(rd.sp.target, rd.sp.extended);
    }

    ghost predicate Valid()
      reads this
    {
      && ValidSpacing(rd.sp)
      && (forall h :: h in known ==> h < nextHash)
      && TasksOk(rd, known, held, queue) && Sorted(queue)
      && (forall t :: t in held ==> t.ExtTask? && TaskOk(rd.sp, rd.ref, known, t))
      && OnePerFork(queue) && Counted(queue, made)
      && (forall f :: f in made ==> made[f] < rd.sp.target / rd.sp.extended)
    }

    ghost predicate Offers()
      reads this
      requires ValidSpacing(rd.sp)
    {
      Offered(started, made, queue, late, rd.sp.target / rd.sp.extended)
    }

    /**
     * The main loop. It ends whatever the outside world answers, fewer extended tasks than slots are made for any fork,
     * and every extended block that was ever queued is acceptable on top of the block it builds on. Unless the clock
     * ran past the spacing, a fork that got its subsidiary block was offered every further slot.
     */
    method Process(world: nat -> Step, originHeight: Hash -> int)
      requires Valid() && Offers()
      modifies this
      ensures Valid() && queue == [] && old(held) <= held && old(started) <= started
      ensures !late ==> forall f :: f in started ==> f in made && made[f] + 1 == rd.sp.target / rd.sp.extended
      ensures forall t :: t in held ==>
                && t.ExtTask? && t.prev in known && t.number == known[t.prev].number + 1
                && HeightFollows(BuiltBlock(rd, known[t.prev]), ExtBlock(rd, t))
                && VerifySubFork(rd.sp, BuiltBlock(rd, known[t.prev]), ExtBlock(rd, t)).OK?
      ensures forall f :: f in made ==> made[f] < rd.sp.target / rd.sp.extended
    {
      var n := 0;
      while queue != []
        invariant Valid() && Offers() && old(held) <= held && old(started) <= started
        decreases TotalRemaining(rd.sp, rd.ref, queue)
      {
        ProcessOne(world(n), originHeight);
        n := n + 1;
      }
      forall t | t in held
        ensures HeightFollows(BuiltBlock(rd, known[t.prev]), ExtBlock(rd, t))
        ensures VerifySubFork(rd.sp, BuiltBlock(rd, known[t.prev]), ExtBlock(rd, t)).OK?
      {
        TaskAcceptable(rd, known, t);
      }
    }

    method ProcessOne(w: Step, originHeight: Hash -> int)
      requires Valid() && Offers() && queue != []
      modifies this
      ensures Valid() && Offers() && old(held) <= held && old(started) <= started
      ensures TotalRemaining(rd.sp, rd.ref, queue) < old(TotalRemaining(rd.sp, rd.ref, queue))
    {
      if queue[0].task.SubTask? {
        ProcessSubsidiary(w, originHeight(queue[0].task.fork));
      } else {
        ProcessExtended(w);
      }
    }

    /** Block `h` was dispatched as `b`, and the next slot of the fork in front follows it. */
    ghost predicate HandsOn(known0: map<Hash, Built>, queue0: seq<Entry>, h: Hash, clock: nat, b: Built)
      reads this
      requires queue0 != []
    {
      && h !in known0 && known == known0[h := b]
      && queue == Requeued(queue0, EntryOf(NextTask(rd, queue0[0].task.fork, h, b.time, b.number, b.slot, clock)))
    }

    /** The time at which a task that was due at `fire` is taken up. */
    function Now(fire: nat, clock: nat): (now: nat)
      ensures now >= fire && now >= clock && now in {fire, clock}
    {
      if clock < fire then fire else clock
    }

    /** A fork is started exactly when there is a block to build on and the subsidiary block is made and dispatched. */
    method ProcessSubsidiary(w: Step, originHeight: int)
      requires Valid() && Offers() && queue != [] && queue[0].task.SubTask?
      modifies this
      ensures Valid() && Offers() && old(held) <= held
      ensures var e := old(queue)[0];
              var before := if e.task.fork in old(lastStat) then old(lastStat)[e.task.fork] else (0, 0);
              var (choice, stat) := ChoosePrev(rd, w.sub, e.task.number, originHeight, Now(e.fire, w.clock), before);
              && started == (if choice.Prev? && w.success then old(started) + {e.task.fork} else old(started))
              && lastStat == (if stat.Some? then old(lastStat)[e.task.fork := stat.value] else old(lastStat))
              && if choice.Prev? && w.success then
                   // the block is built on the chosen one, and the fork's next slot follows it
                   exists h :: HandsOn(old(known), old(queue), h, w.later,
                                       Built(rd.ref.time, 0, choice.number, choice.prev.hash))
                 else
                   && known == old(known)
                   && queue == Requeued(old(queue), if choice.Wait? then Some(Entry(Now(e.fire, w.clock) + 1, e.task))
                                                    else None)
      ensures TotalRemaining(rd.sp, rd.ref, queue) < old(TotalRemaining(rd.sp, rd.ref, queue))
    {
      var now := Now(queue[0].fire, w.clock);
      var choice := Consult(queue[0].task.fork, w.sub, queue[0].task.number, originHeight, now);
      Act(choice, now, w.success, w.later);
    }

    method Consult(fork: Hash, sub: SubInput, number: nat, originHeight: int, now: nat) returns (choice: Choice)
      modifies this`lastStat
      ensures var before := if fork in old(lastStat) then old(lastStat)[fork] else (0, 0);
              var (chosen, stat) := ChoosePrev(rd, sub, number, originHeight, now, before);
              && choice == chosen
              && lastStat == if stat.Some? then old(lastStat)[fork := stat.value] else old(lastStat)
      ensures choice.Wait? ==> now < rd.ref.time
    {
      var before := if fork in lastStat then lastStat[fork] else (0, 0);
      var (chosen, stat) := ChoosePrev(rd, sub, number, originHeight, now, before);
      if stat.Some? {
        lastStat := lastStat[fork := stat.value];
      }
      choice := chosen;
    }

    /** Builds on the chosen block, waits a second, or leaves the fork out of the round. */
    method Act(choice: Choice, now: nat, success: bool, later: nat)
      requires Valid() && Offers() && queue != [] && queue[0].task.SubTask? && queue[0].fire <= now
      requires choice.Wait? ==> now < rd.ref.time
      modifies this`queue, this`held, this`made, this`started, this`late, this`known, this`nextHash
      ensures Valid() && Offers() && old(held) <= held
      ensures var e, built := old(queue)[0], choice.Prev? && success;
              && started == (if built then old(started) + {e.task.fork} else old(started))
              && if built then
                   exists h :: HandsOn(old(known), old(queue), h, later,
                                       Built(rd.ref.time, 0, choice.number, choice.prev.hash))
                 else
                   && known == old(known)
                   && queue == Requeued(old(queue), if choice.Wait? then Some(Entry(now + 1, e.task)) else None)
      ensures TotalRemaining(rd.sp, rd.ref, queue) < old(TotalRemaining(rd.sp, rd.ref, queue))
    {
      assert queue[0] in queue;
      if choice.Wait? {
        Defer(Some(Entry(now + 1, queue[0].task)));
      } else if choice.Prev? && success {
        Build(rd.ref.time, 0, choice.number, choice.prev.hash, later);
      } else {
        Defer(None);
      }
    }

    /** A made block is the next task's previous block; a slot without one is passed on to the block before. */
    method ProcessExtended(w: Step)
      requires Valid() && Offers() && queue != [] && queue[0].task.ExtTask?
      modifies this
      ensures Valid() && Offers() && old(held) <= held && started == old(started) + {old(queue)[0].task.fork}
      ensures TotalRemaining(rd.sp, rd.ref, queue) < old(TotalRemaining(rd.sp, rd.ref, queue))
      ensures var t := old(queue)[0].task;
              if w.success then
                exists h :: HandsOn(old(known), old(queue), h, w.later, Built(t.time, t.slot, t.number, t.prev))
              else
                && known == old(known)
                && queue == Requeued(old(queue), EntryOf(NextTask(rd, t.fork, t.prev, t.time, t.number - 1, t.slot,
                                                                  w.later)))
    {
      var t := queue[0].task;
      assert queue[0] in queue;
      if w.success {
        Build(t.time, t.slot, t.number, t.prev, w.later);
      } else {
        Continue(t.prev, t.time, t.number - 1, t.slot, w.later);
      }
    }

    /** Drops the subsidiary task in front, or puts it back for later. */
    method Defer(next: Option<Entry>)
      requires Valid() && Offers() && queue != [] && queue[0].task.SubTask?
      requires next.Some? ==>
                 && next.value.task == queue[0].task && next.value.fire > queue[0].fire
                 && queue[0].fire < rd.ref.time
      modifies this`queue, this`held, this`made
      ensures Valid() && Offers() && old(held) <= held && queue == Requeued(old(queue), next)
      ensures TotalRemaining(rd.sp, rd.ref, queue) < old(TotalRemaining(rd.sp, rd.ref, queue))
    {
      OfferedStep(started, made, queue, late, late, rd.sp.target / rd.sp.extended, next, false);
      Replace(next);
    }

    method Dispatch(time: nat, slot: nat, number: nat, prev: Hash) returns (hash: Hash)
      requires Valid()
      modifies this`known, this`nextHash
      ensures Valid() && hash !in old(known) && known == old(known)[hash := Built(time, slot, number, prev)]
    {
      hash := nextHash;
      nextHash := nextHash + 1;
      known := known[hash := Built(time, slot, number, prev)];
    }

    /** Dispatches the block of the task in front and queues the fork's next extended one, if any. */
    method Build(time: nat, slot: nat, number: nat, prev: Hash, clock: nat)
      requires Valid() && Offers() && queue != [] && slot == (if queue[0].task.ExtTask? then queue[0].task.slot else 0)
      requires time == rd.ref.time + slot * rd.sp.extended
      requires queue[0].task.ExtTask? ==> queue[0].task.time == time
      modifies this`queue, this`held, this`made, this`started, this`late, this`known, this`nextHash
      ensures Valid() && Offers() && old(held) <= held && started == old(started) + {old(queue)[0].task.fork}
      ensures exists h :: HandsOn(old(known), old(queue), h, clock, Built(time, slot, number, prev))
      ensures TotalRemaining(rd.sp, rd.ref, queue) < old(TotalRemaining(rd.sp, rd.ref, queue))
    {
      var hash := Dispatch(time, slot, number, prev);
      Continue(hash, time, number, slot, clock);
      assert HandsOn(old(known), old(queue), hash, clock, Built(time, slot, number, prev));
    }

    /** Pops the first task and queues the fork's next extended one, if any. */
    method Continue(prev: Hash, time: nat, number: nat, slot: nat, clock: nat)
      requires Valid() && queue != [] && slot == (if queue[0].task.ExtTask? then queue[0].task.slot else 0)
      requires prev in known && known[prev].number == number && known[prev].time <= time
               && time == rd.ref.time + slot * rd.sp.extended
      requires queue[0].task.ExtTask? ==> queue[0].task.time == time
      requires Offers()
      modifies this`queue, this`held, this`made, this`started, this`late
      ensures Valid() && Offers() && old(held) <= held && started == old(started) + {old(queue)[0].task.fork}
      ensures late == (old(late) || clock >= rd.ref.time + rd.sp.target)
      ensures queue == Requeued(old(queue), EntryOf(NextTask(rd, old(queue)[0].task.fork, prev, time, number, slot,
                                                             clock)))
      ensures TotalRemaining(rd.sp, rd.ref, queue) < old(TotalRemaining(rd.sp, rd.ref, queue))
    {
      var next := NextTask(rd, queue[0].task.fork, prev, time, number, slot, clock);
      assert queue[0] in queue;
      ContinueOffers(rd, started, made, queue, late, next, prev, time, number, slot, clock);
      late := late || clock >= rd.ref.time + rd.sp.target;
      started := started + {queue[0].task.fork};
      if next.Some? {
        NextTaskOk(rd, known, queue[0].task.fork, prev, time, number, slot, clock);
        Replace(Some(Entry(next.value.time, next.value)));
      } else {
        Replace(None);
      }
    }

    /** Pops the first task and queues another one for the same fork, if any. */
    method Replace(next: Option<Entry>)
      requires Valid() && queue != []
      requires next.Some? ==>
                 && next.value.task.fork == queue[0].task.fork
                 && TaskOk(rd.sp, rd.ref, known, next.value.task)
                 && Remaining(rd.sp, rd.ref, next.value) < Remaining(rd.sp, rd.ref, queue[0])
                 && (next.value.task.SubTask? ==> queue[0].task.SubTask?)
                 && (next.value.task.ExtTask? ==> next.value.task.slot < rd.sp.target / rd.sp.extended)
      requires Remaining(rd.sp, rd.ref, queue[0]) > 0
      modifies this`queue, this`held, this`made
      ensures Valid() && old(held) <= held
      ensures queue == Requeued(old(queue), next) && made == Recounted(old(made), next)
      ensures TotalRemaining(rd.sp, rd.ref, queue) < old(TotalRemaining(rd.sp, rd.ref, queue))
    {
      Pop(rd, known, held, made, queue);
      var rest := queue[1..];
      queue := rest;
      if next.Some? {
        Push(rd, known, held, made, rest, next.value);
        InsertRemaining(rd.sp, rd.ref, rest, next.value);
        InsertSorted(rest, next.value);
        queue := Insert(rest, next.value);
        made := made[next.value.task.fork := if next.value.task.ExtTask? then next.value.task.slot else 0];
        if next.value.task.ExtTask? {
          held := held + {next.value.task};
        }
      }
    }
  }
}
