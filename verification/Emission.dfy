/** The halving reward of primary blocks. */
module Emission {
  import opened Common

  function Pow2(e: nat): (r: nat)
    ensures r > 0
  {
    if e == 0 then 1 else 2 * Pow2(e - 1)
  }

  /** `uint256` division. */
  function Quotient(a: nat, d: nat): (q: nat)
    requires d > 0
    ensures q * d <= a < q * d + d
  {
    a / d
  }

  /** The schedule: the halving cycle, and the initial rewards before and from a switch height. */
  datatype Schedule = Schedule(cycle: nat, initial: nat, oldInitial: nat, switchHeight: nat)

  ghost predicate Sane(p: Schedule)
  {
    p.cycle > 0
  }

  /** The reward of the block after one of height `prev`; from the 64th halving on it is taken to be zero. */
  function GetPrimaryBlockReward(p: Schedule, prev: nat): nat
    requires Sane(p)
  {
    var e := (prev + 1) / p.cycle;
    if e >= 64 then 0
    else if prev < p.switchHeight then Quotient(p.oldInitial, Pow2(e))
    else Quotient(p.initial, Pow2(e))
  }

  function Larger(p: Schedule): nat
  {
    if p.initial < p.oldInitial then p.oldInitial else p.initial
  }

  /** The rewards of heights 1 to `n`. */
  function Emitted(p: Schedule, n: nat): nat
    requires Sane(p)
  {
    if n == 0 then 0 else Emitted(p, n - 1) + GetPrimaryBlockReward(p, n - 1)
  }

  /** `top` after `e` halvings. */
  function Level(top: nat, e: nat): nat
  {
    Quotient(top, Pow2(e))
  }

  lemma QuotientMonotone(a: nat, b: nat, d: nat)
    requires a <= b && d > 0
    ensures Quotient(a, d) <= Quotient(b, d)
  {
    var x, y := Quotient(a, d), Quotient(b, d);
    assert x >= y + 1 ==> x * d >= (y + 1) * d == y * d + d;
  }

  lemma LevelHalves(top: nat, e: nat)
    ensures 2 * Level(top, e + 1) <= Level(top, e)
  {
    HalfQuotient(top, Pow2(e));
  }

  lemma HalfQuotient(top: nat, d: nat)
    requires d > 0
    ensures 2 * Quotient(top, 2 * d) <= Quotient(top, d)
  {
    HalfBelow(top, d, Quotient(top, 2 * d), Quotient(top, d));
  }

  lemma HalfBelow(top: nat, d: nat, x: nat, y: nat)
    requires d > 0 && x * (2 * d) <= top < y * d + d
    ensures 2 * x <= y
  {
    assert (2 * x) * d == x * (2 * d) && (y + 1) * d == y * d + d;
    if 2 * x > y {
      MulMonotone(y + 1, 2 * x, d);
    }
  }

  lemma RewardBelowLevel(p: Schedule, prev: nat)
    requires Sane(p)
    ensures GetPrimaryBlockReward(p, prev) <= Level(Larger(p), (prev + 1) / p.cycle)
  {
    QuotientMonotone(p.initial, Larger(p), Pow2((prev + 1) / p.cycle));
    QuotientMonotone(p.oldInitial, Larger(p), Pow2((prev + 1) / p.cycle));
  }

  /** What the first `n` heights can emit: full cycles pay twice the drop in level, the running one pays its level. */
  ghost predicate Paid(p: Schedule, n: nat, q: nat, r: nat)
    requires Sane(p)
  {
    var top := Larger(p);
    Emitted(p, n) <= 2 * (p.cycle * (top - Level(top, q))) + (r + 1) * Level(top, q)
  }

  lemma {:induction false} EmittedPaid(p: Schedule, n: nat, q: nat, r: nat)
    requires Sane(p) && n == q * p.cycle + r && r < p.cycle
    ensures Paid(p, n, q, r)
    decreases n
  {
    if n == 0 {
      NothingPaid(p, q, r);
    } else {
      DivUnique(n, p.cycle, q, r);
      RewardBelowLevel(p, n - 1);
      if r > 0 {
        EmittedPaid(p, n - 1, q, r - 1);
        SameCycle(p, n, q, r);
      } else {
        PreviousCycle(n, p.cycle, q);
        EmittedPaid(p, n - 1, q - 1, p.cycle - 1);
        NextCycle(p, n, q);
      }
    }
  }

  lemma NothingPaid(p: Schedule, q: nat, r: nat)
    requires Sane(p)
    ensures Paid(p, 0, q, r)
  {
    LevelBelow(Larger(p), q);
    MulMonotone(0, Larger(p) - Level(Larger(p), q), p.cycle);
    MulMonotone(0, r + 1, Level(Larger(p), q));
  }

  lemma PreviousCycle(n: nat, c: nat, q: nat)
    requires c > 0 && n > 0 && n == q * c
    ensures q >= 1 && n - 1 == (q - 1) * c + (c - 1)
  {
    assert q == 0 ==> q * c == 0;
    assert (q - 1) * c == q * c - c;
  }

  lemma NextCycle(p: Schedule, n: nat, q: nat)
    requires Sane(p) && n > 0 && q > 0 && Paid(p, n - 1, q - 1, p.cycle - 1)
    requires GetPrimaryBlockReward(p, n - 1) <= Level(Larger(p), q)
    ensures Paid(p, n, q, 0)
  {
    LevelBelow(Larger(p), q - 1);
    LevelHalves(Larger(p), q - 1);
    CyclePays(p.cycle, Larger(p), Level(Larger(p), q - 1), Level(Larger(p), q));
  }

  lemma SameCycle(p: Schedule, n: nat, q: nat, r: nat)
    requires Sane(p) && n > 0 && r > 0 && Paid(p, n - 1, q, r - 1)
    requires GetPrimaryBlockReward(p, n - 1) <= Level(Larger(p), q)
    ensures Paid(p, n, q, r)
  {
    var a := Level(Larger(p), q);
    assert (r + 1) * a == r * a + a;
  }

  lemma CyclePays(c: nat, top: nat, a: nat, b: nat)
    requires 2 * b <= a <= top
    ensures 2 * (c * (top - a)) + c * a + b <= 2 * (c * (top - b)) + b
  {
    assert c * (top - b) == c * (top - a) + c * (a - b);
    assert 2 * (c * (a - b)) == c * (2 * a - 2 * b);
    assert c * a <= c * (2 * a - 2 * b);
  }

  lemma LevelBelow(top: nat, e: nat)
    ensures Level(top, e) <= top
  {
    MulMonotone(1, Pow2(e), Level(top, e));
    assert Level(top, e) * Pow2(e) == Pow2(e) * Level(top, e);
  }

  /** However long the chain, it emits at most two cycles' worth of the larger initial reward. */
  lemma EmissionBound(p: Schedule, n: nat)
    requires Sane(p)
    ensures Emitted(p, n) <= 2 * (p.cycle * Larger(p))
  {
    var q, r := n / p.cycle, n % p.cycle;
    EmittedPaid(p, n, q, r);
    LevelBelow(Larger(p), q);
    WithinCycle(p.cycle, Larger(p), Level(Larger(p), q), r);
  }

  lemma WithinCycle(c: nat, top: nat, a: nat, r: nat)
    requires a <= top && r < c
    ensures 2 * (c * (top - a)) + (r + 1) * a <= 2 * (c * top)
  {
    assert (r + 1) * a <= c * a;
    assert c * (top - a) == c * top - c * a;
  }

  // ----- the reward of one height

  ghost function TopAt(p: Schedule, prev: nat): nat
  {
    if prev < p.switchHeight then p.oldInitial else p.initial
  }

  /** The initial reward of the block's side of the switch height, halved once per full cycle, rounded down. */
  lemma RewardIs(p: Schedule, prev: nat)
    requires Sane(p)
    ensures (prev + 1) / p.cycle < 64 ==>
              var e, reward := (prev + 1) / p.cycle, GetPrimaryBlockReward(p, prev);
              reward * Pow2(e) <= TopAt(p, prev) < (reward + 1) * Pow2(e)
    ensures (prev + 1) / p.cycle >= 64 ==> GetPrimaryBlockReward(p, prev) == 0
  {
    var e, reward := (prev + 1) / p.cycle, GetPrimaryBlockReward(p, prev);
    assert (reward + 1) * Pow2(e) == reward * Pow2(e) + Pow2(e);
  }

  lemma HalfOf(top: nat, d: nat)
    requires d > 0
    ensures Quotient(top, 2 * d) == Quotient(top, d) / 2
  {
    var x, y := Quotient(top, 2 * d), Quotient(top, d);
    HalfQuotient(top, d);
    assert x * (2 * d) == (2 * x) * d && (2 * x + 2) * d == (2 * x) * d + 2 * d;
    if 2 * x + 2 <= y {
      MulMonotone(2 * x + 2, y, d);
    }
  }

  lemma NextExponent(n: nat, c: nat)
    requires c > 0
    ensures (n + c) / c == n / c + 1
  {
    DivUnique(n + c, c, n / c + 1, n % c);
  }

  /** One cycle later, on the same side of the switch height, the reward is half, rounded down. */
  lemma RewardHalves(p: Schedule, prev: nat)
    requires Sane(p) && (prev + 1) / p.cycle < 63 && (prev + p.cycle < p.switchHeight || prev >= p.switchHeight)
    ensures GetPrimaryBlockReward(p, prev + p.cycle) == GetPrimaryBlockReward(p, prev) / 2
  {
    NextExponent(prev + 1, p.cycle);
    HalfOf(TopAt(p, prev), Pow2((prev + 1) / p.cycle));
  }

  /** Before the first full cycle the whole initial reward is paid. */
  lemma FirstCycle(p: Schedule, prev: nat)
    requires Sane(p) && prev + 1 < p.cycle
    ensures GetPrimaryBlockReward(p, prev) == TopAt(p, prev)
  {
    DivUnique(prev + 1, p.cycle, 0, prev + 1);
    RewardIs(p, prev);
  }
}
