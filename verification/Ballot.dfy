/** The weighted draw of the block producer (`GetDelegatedBallot`). */
module Ballot {
  import opened Common

  const COIN: nat := 1000000000000000000
  const DELEGATE_PROOF_OF_STAKE_ENROLL_MAXIMUM_AMOUNT: nat := 300000000 * COIN
  const DELEGATE_PROOF_OF_STAKE_UNIT_AMOUNT: nat := COIN

  /** A delegate and its vote amount. */
  datatype Vote = Vote(dest: Dest, amount: nat)

  function Capped(amount: nat): nat
  {
    if amount < DELEGATE_PROOF_OF_STAKE_ENROLL_MAXIMUM_AMOUNT then amount
    else DELEGATE_PROOF_OF_STAKE_ENROLL_MAXIMUM_AMOUNT
  }

  function Weight(amount: nat): nat
  {
    Capped(amount) / DELEGATE_PROOF_OF_STAKE_UNIT_AMOUNT
  }

  // ----- accumulating the enrolled delegates

  /** `f` of every enrolled delegate's amount; a later entry of the same delegate overwrites an earlier one. */
  ghost function Select(votes: seq<Vote>, enrolled: set<Dest>, f: nat -> nat): map<Dest, nat>
  {
    if votes == [] then map[] else
      var v := votes[|votes| - 1];
      var before := Select(votes[..|votes| - 1], enrolled, f);
      if v.dest in enrolled then before[v.dest := f(v.amount)] else before
  }

  /** The running sum over the same entries. */
  ghost function SumOf(votes: seq<Vote>, enrolled: set<Dest>, f: nat -> nat): nat
  {
    if votes == [] then 0 else
      var v := votes[|votes| - 1];
      SumOf(votes[..|votes| - 1], enrolled, f) + if v.dest in enrolled then f(v.amount) else 0
  }

  ghost predicate DistinctDests(votes: seq<Vote>)
  {
    forall i, j :: 0 <= i < j < |votes| ==> votes[i].dest != votes[j].dest
  }

  /** With distinct delegates, the selection holds each enrolled one with its own amount. */
  lemma {:induction false} SelectIs(votes: seq<Vote>, enrolled: set<Dest>, f: nat -> nat, d: Dest)
    ensures d in Select(votes, enrolled, f) <==> d in enrolled && exists i :: 0 <= i < |votes| && votes[i].dest == d
    ensures DistinctDests(votes) ==>
              forall i :: 0 <= i < |votes| && votes[i].dest == d && d in enrolled ==>
                            Select(votes, enrolled, f)[d] == f(votes[i].amount)
  {
    if votes != [] {
      var n := |votes| - 1;
      SelectIs(votes[..n], enrolled, f, d);
      if d in enrolled && exists i :: 0 <= i < |votes| && votes[i].dest == d {
        var i :| 0 <= i < |votes| && votes[i].dest == d;
        assert i < n ==> votes[..n][i].dest == d;
      }
      if exists i :: 0 <= i < n && votes[..n][i].dest == d {
        var i :| 0 <= i < n && votes[..n][i].dest == d;
        assert votes[i].dest == d;
      }
    }
  }

  lemma {:induction false} SelectTotal(votes: seq<Vote>, enrolled: set<Dest>, f: nat -> nat)
    requires DistinctDests(votes)
    ensures Total(Select(votes, enrolled, f)) == SumOf(votes, enrolled, f)
  {
    if votes != [] {
      var n := |votes| - 1;
      SelectTotal(votes[..n], enrolled, f);
      SelectIs(votes[..n], enrolled, f, votes[n].dest);
      TotalUpdate(Select(votes[..n], enrolled, f), votes[n].dest, f(votes[n].amount));
    }
  }

  /** Without distinctness the sum can only exceed the selection. */
  lemma {:induction false} SelectBelow(votes: seq<Vote>, enrolled: set<Dest>, f: nat -> nat)
    ensures Total(Select(votes, enrolled, f)) <= SumOf(votes, enrolled, f)
  {
    if votes != [] {
      var n := |votes| - 1;
      SelectBelow(votes[..n], enrolled, f);
      TotalUpdate(Select(votes[..n], enrolled, f), votes[n].dest, f(votes[n].amount));
    }
  }

  // ----- the draw

  /** Walks the weights in address order until `n` falls into one. */
  ghost function Pick(m: map<Dest, nat>, n: nat): Option<Dest>
    decreases |m|
  {
    if m == map[] then None else
      var k := Least(m.Keys);
      if n < m[k] then Some(k) else Pick(m - {k}, n - m[k])
  }

  /** The weights of the lower addresses. */
  ghost function Lower(m: map<Dest, nat>, d: Dest): map<Dest, nat>
  {
    map k | k in m && k < d :: m[k]
  }

  lemma {:induction false} PickIff(m: map<Dest, nat>, n: nat, d: Dest)
    ensures Pick(m, n) == Some(d) <==> d in m && Total(Lower(m, d)) <= n < Total(Lower(m, d)) + m[d]
    decreases |m|
  {
    if m != map[] {
      var k := Least(m.Keys);
      var rest := m - {k};
      if d == k {
        assert Lower(m, d) == map[];
        if n >= m[k] {
          PickIff(rest, n - m[k], d);
        }
      } else if d in m {
        assert k in Lower(m, d);
        TotalRemove(Lower(m, d), k);
        assert Lower(m, d) - {k} == Lower(rest, d);
        if n >= m[k] {
          PickIff(rest, n - m[k], d);
        }
      } else if n >= m[k] {
        PickIff(rest, n - m[k], d);
      }
    }
  }

  lemma {:induction false} PickSome(m: map<Dest, nat>, n: nat)
    ensures Pick(m, n).Some? <==> n < Total(m)
    decreases |m|
  {
    if m != map[] {
      var k := Least(m.Keys);
      TotalRemove(m, k);
      if n >= m[k] {
        PickSome(m - {k}, n - m[k]);
      }
    }
  }

  /** The residues below `total` that choose `d`. */
  ghost function Winning(m: map<Dest, nat>, total: nat, d: Dest): set<nat>
  {
    set n: nat | n < total && Pick(m, n) == Some(d)
  }

  ghost function Interval(lo: nat, size: nat): (r: set<nat>)
    ensures forall n :: n in r <==> lo <= n < lo + size
    ensures |r| == size
  {
    if size == 0 then {} else Interval(lo, size - 1) + {lo + size - 1}
  }

  lemma LowerFits(m: map<Dest, nat>, d: Dest)
    requires d in m
    ensures Total(Lower(m, d)) + m[d] <= Total(m)
  {
    if m[d] > 0 {
      var n := Total(Lower(m, d)) + m[d] - 1;
      PickIff(m, n, d);
      PickSome(m, n);
    } else {
      TotalSubset(m, Lower(m, d));
    }
  }

  lemma {:induction false} TotalSubset(m: map<Dest, nat>, part: map<Dest, nat>)
    requires forall k :: k in part ==> k in m && m[k] == part[k]
    ensures Total(part) <= Total(m)
    decreases |m|
  {
    if m != map[] {
      var k :| k in m;
      TotalRemove(m, k);
      if k in part {
        TotalRemove(part, k);
      } else {
        assert part - {k} == part;
      }
      TotalSubset(m - {k}, part - {k});
    }
  }

  /** Every delegate is chosen by exactly as many residues as its weight. */
  lemma FairDraw(m: map<Dest, nat>, d: Dest)
    requires d in m
    ensures |Winning(m, Total(m), d)| == m[d]
  {
    LowerFits(m, d);
    var lo := Total(Lower(m, d));
    forall n: nat ensures n in Winning(m, Total(m), d) <==> n in Interval(lo, m[d]) {
      PickIff(m, n, d);
    }
    assert Winning(m, Total(m), d) == Interval(lo, m[d]);
  }

  // ----- the method

  /** The eight 32-bit words of the agreement, folded by exclusive or. */
  function FoldWords(words: seq<bv32>): bv32
  {
    if words == [] then 0 else FoldWords(words[..|words| - 1]) ^ words[|words| - 1]
  }

  method FoldAgreement(words: seq<bv32>) returns (selected: bv32)
    ensures selected == FoldWords(words)
  {
    selected := 0;
    for i := 0 to |words|
      invariant selected == FoldWords(words[..i])
    {
      assert words[..i + 1][..i] == words[..i];
      selected := selected ^ words[i];
    }
    assert words[..|words|] == words;
  }

  method Accumulate(votes: seq<Vote>, enrolled: set<Dest>) returns (selection: map<Dest, nat>, weight: nat, trust: nat)
    ensures selection == Select(votes, enrolled, Weight)
    ensures weight == SumOf(votes, enrolled, Weight)
    ensures trust == SumOf(votes, enrolled, Capped)
  {
    selection, weight, trust := map[], 0, 0;
    for i := 0 to |votes|
      invariant selection == Select(votes[..i], enrolled, Weight)
      invariant weight == SumOf(votes[..i], enrolled, Weight)
      invariant trust == SumOf(votes[..i], enrolled, Capped)
    {
      var v := votes[i];
      assert votes[..i + 1][..i] == votes[..i];
      if v.dest in enrolled {
        var minAmount := Capped(v.amount);
        var destWeight := minAmount / DELEGATE_PROOF_OF_STAKE_UNIT_AMOUNT;
        selection := selection[v.dest := destWeight];
        weight := weight + destWeight;
        trust := trust + minAmount;
      }
    }
    assert votes[..|votes|] == votes;
  }

  /** The same walk over a list of addresses. */
  ghost function PickFrom(m: map<Dest, nat>, keys: seq<Dest>, n: nat): Option<Dest>
    requires forall k :: k in keys ==> k in m
  {
    if keys == [] then None
    else if n < m[keys[0]] then Some(keys[0])
    else PickFrom(m, keys[1..], n - m[keys[0]])
  }

  lemma {:induction false} PickFromAgree(m: map<Dest, nat>, m': map<Dest, nat>, keys: seq<Dest>, n: nat)
    requires forall k :: k in keys ==> k in m && k in m' && m[k] == m'[k]
    ensures PickFrom(m, keys, n) == PickFrom(m', keys, n)
  {
    if keys != [] && n >= m[keys[0]] {
      PickFromAgree(m, m', keys[1..], n - m[keys[0]]);
    }
  }

  lemma FirstIsLeast(s: set<Dest>, keys: seq<Dest>)
    requires StrictlyAscending(keys) && keys != [] && forall k :: k in keys <==> k in s
    ensures s != {} && Least(s) == keys[0]
  {
    assert keys[0] in s;
    forall k | k in s ensures keys[0] <= k {
      var i :| 0 <= i < |keys| && keys[i] == k;
    }
  }

  lemma {:induction false} PickFromIs(m: map<Dest, nat>, keys: seq<Dest>, n: nat)
    requires StrictlyAscending(keys) && forall k :: k in keys <==> k in m
    ensures PickFrom(m, keys, n) == Pick(m, n)
    decreases |keys|
  {
    if keys == [] {
      assert m == map[];
    } else {
      FirstIsLeast(m.Keys, keys);
      AscendingFirst(keys);
      if n >= m[keys[0]] {
        PickFromIs(m - {keys[0]}, keys[1..], n - m[keys[0]]);
        PickFromAgree(m, m - {keys[0]}, keys[1..], n - m[keys[0]]);
      }
    }
  }

  method Draw(selection: map<Dest, nat>, keys: seq<Dest>, start: nat) returns (ballot: seq<Dest>)
    requires forall k :: k in keys ==> k in selection
    ensures ballot == match PickFrom(selection, keys, start) case Some(d) => [d] case None => []
  {
    var n, i := start, 0;
    ballot := [];
    while i < |keys|
      invariant 0 <= i <= |keys|
      invariant PickFrom(selection, keys, start) == PickFrom(selection, keys[i..], n)
    {
      if n < selection[keys[i]] {
        ballot := [keys[i]];
        return;
      }
      n := n - selection[keys[i]];
      assert keys[i..][1..] == keys[i + 1..];
      i := i + 1;
    }
  }

  /** `GetDelegatedBallot`; `words` is the agreement and `enrolled` the keys of `mapBallot`. */
  method GetDelegatedBallot(words: seq<bv32>, enrolled: set<Dest>, votes: seq<Vote>, moneySupply: nat)
    returns (trust: nat, ballot: seq<Dest>)
    ensures var weight := SumOf(votes, enrolled, Weight);
            if || (forall i :: 0 <= i < |words| ==> words[i] == 0)
               || enrolled == {} || moneySupply == 0 || weight == 0 then
              trust == 0 && ballot == []
            else
              && trust == SumOf(votes, enrolled, Capped)
              && ballot == match Pick(Select(votes, enrolled, Weight), FoldWords(words) as nat % weight)
                           case Some(d) => [d]
                           case None => []
  {
    if (forall i :: 0 <= i < |words| ==> words[i] == 0) || enrolled == {} || moneySupply == 0 {
      return 0, [];
    }
    var selected := FoldAgreement(words);
    var selection, weight;
    selection, weight, trust := Accumulate(votes, enrolled);
    if weight == 0 {
      return 0, [];
    }
    PickFromIs(selection, Ascending(selection.Keys), selected as nat % weight);
    ballot := Draw(selection, Ascending(selection.Keys), selected as nat % weight);
  }

  // ----- what the draw guarantees

  /** With distinct delegates every residue chooses exactly one of them, and each has as many as its weight. */
  lemma ExactlyOneWinner(votes: seq<Vote>, enrolled: set<Dest>, n: nat)
    requires DistinctDests(votes) && n < SumOf(votes, enrolled, Weight)
    ensures Pick(Select(votes, enrolled, Weight), n).Some?
    ensures forall i :: 0 <= i < |votes| && votes[i].dest in enrolled ==>
              |Winning(Select(votes, enrolled, Weight), SumOf(votes, enrolled, Weight), votes[i].dest)|
                == Weight(votes[i].amount)
  {
    var m := Select(votes, enrolled, Weight);
    SelectTotal(votes, enrolled, Weight);
    PickSome(m, n);
    forall i | 0 <= i < |votes| && votes[i].dest in enrolled
      ensures |Winning(m, SumOf(votes, enrolled, Weight), votes[i].dest)| == Weight(votes[i].amount)
    {
      SelectIs(votes, enrolled, Weight, votes[i].dest);
      FairDraw(m, votes[i].dest);
    }
  }

  /** Every entry that a later one of the same enrolled delegate overwrites carries no weight. */
  ghost predicate NothingOverwritten(votes: seq<Vote>, enrolled: set<Dest>, f: nat -> nat)
  {
    forall i, j :: 0 <= i < j < |votes| && votes[i].dest == votes[j].dest && votes[i].dest in enrolled
      ==> f(votes[i].amount) == 0
  }

  /** A selected delegate's value is that of its last entry. */
  lemma {:induction false} SelectLast(votes: seq<Vote>, enrolled: set<Dest>, f: nat -> nat, d: Dest) returns (i: nat)
    requires d in Select(votes, enrolled, f)
    ensures i < |votes| && votes[i].dest == d && d in enrolled && Select(votes, enrolled, f)[d] == f(votes[i].amount)
    ensures forall j :: i < j < |votes| ==> votes[j].dest != d
  {
    i := |votes| - 1;
    if votes[i].dest != d || d !in enrolled {
      i := SelectLast(votes[..i], enrolled, f, d);
    }
  }

  /** One more entry overwrites nothing exactly when the delegate's last one carried no weight. */
  lemma OverwriteStep(votes: seq<Vote>, enrolled: set<Dest>, f: nat -> nat, v: Vote)
    ensures var before := Select(votes, enrolled, f);
            NothingOverwritten(votes + [v], enrolled, f) <==>
              NothingOverwritten(votes, enrolled, f) && (v.dest in before ==> before[v.dest] == 0)
  {
    var before, all := Select(votes, enrolled, f), votes + [v];
    if v.dest in before {
      var i := SelectLast(votes, enrolled, f, v.dest);
      assert all[i] == votes[i] && all[|votes|] == v;
    }
    forall i | 0 <= i < |votes| && votes[i].dest == v.dest && v.dest in enrolled ensures v.dest in before {
      SelectIs(votes, enrolled, f, v.dest);
    }
    if NothingOverwritten(all, enrolled, f) {
      forall i, j | 0 <= i < j < |votes| && votes[i].dest == votes[j].dest && votes[i].dest in enrolled
        ensures f(votes[i].amount) == 0
      {
        assert all[i] == votes[i] && all[j] == votes[j];
      }
    }
  }

  lemma {:induction false} OverwriteIff(votes: seq<Vote>, enrolled: set<Dest>, f: nat -> nat)
    ensures Total(Select(votes, enrolled, f)) == SumOf(votes, enrolled, f) <==> NothingOverwritten(votes, enrolled, f)
  {
    if votes != [] {
      var rest, v := votes[..|votes| - 1], votes[|votes| - 1];
      var before := Select(rest, enrolled, f);
      assert votes == rest + [v];
      OverwriteIff(rest, enrolled, f);
      OverwriteStep(rest, enrolled, f, v);
      SelectBelow(rest, enrolled, f);
      SelectIs(rest, enrolled, f, v.dest);
      TotalUpdate(before, v.dest, f(v.amount));
      if v.dest in before {
        TotalAtLeast(before, v.dest);
      }
    }
  }

  ghost predicate EveryDrawWins(m: map<Dest, nat>, total: nat)
  {
    forall n :: 0 <= n < total ==> Pick(m, n).Some?
  }

  lemma EveryDrawWinsWhen(m: map<Dest, nat>, total: nat)
    ensures EveryDrawWins(m, total) <==> total <= Total(m)
  {
    forall n: nat ensures Pick(m, n).Some? <==> n < Total(m) {
      PickSome(m, n);
    }
    if Total(m) < total {
      assert !Pick(m, Total(m)).Some?;
    }
  }

  /** Every draw finds a winner exactly when no delegate's weight was counted twice. */
  lemma EveryDrawWinsIff(votes: seq<Vote>, enrolled: set<Dest>)
    ensures EveryDrawWins(Select(votes, enrolled, Weight), SumOf(votes, enrolled, Weight))
            <==> NothingOverwritten(votes, enrolled, Weight)
  {
    SelectBelow(votes, enrolled, Weight);
    OverwriteIff(votes, enrolled, Weight);
    EveryDrawWinsWhen(Select(votes, enrolled, Weight), SumOf(votes, enrolled, Weight));
  }

  /** A delegate listed twice: its weight counts twice, and one of the two draws has no winner. */
  lemma DuplicateLosesDraw(d: Dest)
    ensures var votes := [Vote(d, COIN), Vote(d, COIN)];
            SumOf(votes, {d}, Weight) == 2 && Pick(Select(votes, {d}, Weight), 1).None?
  {
    var votes := [Vote(d, COIN), Vote(d, COIN)];
    assert votes[..1] == [Vote(d, COIN)] && votes[..1][..0] == [];
    var m := Select(votes, {d}, Weight);
    assert Select([Vote(d, COIN)], {d}, Weight) == map[d := 1] && SumOf([Vote(d, COIN)], {d}, Weight) == 1;
    assert m == map[d := 1];
    TotalRemove(m, d);
    assert m - {d} == map[];
    PickSome(m, 1);
  }

  lemma SameEntries(a: seq<Vote>, b: seq<Vote>, enrolled: set<Dest>, f: nat -> nat)
    requires DistinctDests(a) && DistinctDests(b) && forall v :: v in a <==> v in b
    ensures Select(a, enrolled, f) == Select(b, enrolled, f) && SumOf(a, enrolled, f) == SumOf(b, enrolled, f)
  {
    var m, m' := Select(a, enrolled, f), Select(b, enrolled, f);
    forall d ensures (d in m <==> d in m') && (d in m ==> m[d] == m'[d]) {
      SelectIs(a, enrolled, f, d);
      SelectIs(b, enrolled, f, d);
      if d in m {
        var i :| 0 <= i < |a| && a[i].dest == d;
        assert a[i] in b;
      }
      if d in m' {
        var i :| 0 <= i < |b| && b[i].dest == d;
        assert b[i] in a;
      }
    }
    assert m == m';
    SelectTotal(a, enrolled, f);
    SelectTotal(b, enrolled, f);
  }

  /** Winner and trust do not depend on the order in which the votes are listed. */
  lemma OrderIrrelevant(a: seq<Vote>, b: seq<Vote>, enrolled: set<Dest>, n: nat)
    requires DistinctDests(a) && DistinctDests(b) && forall v :: v in a <==> v in b
    ensures Pick(Select(a, enrolled, Weight), n) == Pick(Select(b, enrolled, Weight), n)
    ensures SumOf(a, enrolled, Weight) == SumOf(b, enrolled, Weight)
            && SumOf(a, enrolled, Capped) == SumOf(b, enrolled, Capped)
  {
    SameEntries(a, b, enrolled, Weight);
    SameEntries(a, b, enrolled, Capped);
  }

  // ----- what a 32-bit draw can reach

  const TWO_32: nat := 0x1_0000_0000

  /** Some agreement of eight words, not all zero, is folded to `n`. */
  ghost predicate Drawn(n: nat)
  {
    exists words: seq<bv32> :: |words| == 8 && (exists i :: 0 <= i < |words| && words[i] != 0)
                               && FoldWords(words) as nat == n
  }

  /** Some agreement makes `d` the winner. */
  ghost predicate CanWin(m: map<Dest, nat>, total: nat, d: Dest)
    requires total > 0
  {
    exists n: nat :: Drawn(n) && Pick(m, n % total) == Some(d)
  }

  lemma FoldSnoc(words: seq<bv32>, w: bv32)
    ensures FoldWords(words + [w]) == FoldWords(words) ^ w
  {
    assert (words + [w])[..|words|] == words;
  }

  lemma {:induction false} FoldZeros(words: seq<bv32>, n: nat) returns (longer: seq<bv32>)
    ensures |longer| == |words| + n && words <= longer && FoldWords(longer) == FoldWords(words)
  {
    longer := words;
    if n > 0 {
      longer := FoldZeros(words, n - 1);
      FoldSnoc(longer, 0);
      longer := longer + [0];
    }
  }

  /** Every 32-bit number is the fold of an agreement that is not zero. */
  lemma AgreementFor(r: bv32) returns (words: seq<bv32>)
    ensures |words| == 8 && FoldWords(words) == r && exists i :: 0 <= i < |words| && words[i] != 0
  {
    FoldSnoc([], 1);
    FoldSnoc([1], r ^ 1);
    assert [] + [1 as bv32] == [1] && [1] + [r ^ 1] == [1, r ^ 1];
    words := FoldZeros([1, r ^ 1], 6);
    assert words[0] == 1;
  }

  lemma DoubleWord(b: bv32)
    requires b as nat < 0x8000_0000
    ensures (b << 1) as nat == 2 * (b as nat) && ((b << 1) + 1) as nat == 2 * (b as nat) + 1
  {
  }

  lemma {:induction false} WordFor(n: nat) returns (b: bv32)
    requires n < TWO_32
    ensures b as nat == n
  {
    if n == 0 {
      b := 0;
    } else {
      var half := WordFor(n / 2);
      DoubleWord(half);
      b := if n % 2 == 0 then half << 1 else (half << 1) + 1;
    }
  }

  lemma DrawnIff(n: nat)
    ensures Drawn(n) <==> n < TWO_32
  {
    if n < TWO_32 {
      var b := WordFor(n);
      var words := AgreementFor(b);
    }
  }

  lemma ModBelow(n: nat, total: nat)
    requires total > 0
    ensures n % total <= n && (n < total ==> n % total == n)
  {
  }

  lemma WinnerBelow(m: map<Dest, nat>, r: nat, d: Dest)
    requires r < TWO_32 && Pick(m, r) == Some(d)
    ensures d in m && m[d] > 0 && Total(Lower(m, d)) < TWO_32
  {
    PickIff(m, r, d);
  }

  lemma WinnerAt(m: map<Dest, nat>, d: Dest)
    requires d in m && m[d] > 0
    ensures Pick(m, Total(Lower(m, d))) == Some(d) && Total(Lower(m, d)) < Total(m)
  {
    LowerFits(m, d);
    PickIff(m, Total(Lower(m, d)), d);
  }

  /** A delegate can win exactly when it has weight and the weights before it do not fill 32 bits. */
  lemma CanWinIff(m: map<Dest, nat>, total: nat, d: Dest)
    requires 0 < total && Total(m) <= total
    ensures CanWin(m, total, d) <==> d in m && m[d] > 0 && Total(Lower(m, d)) < TWO_32
  {
    forall n: nat | Drawn(n) && Pick(m, n % total) == Some(d)
      ensures d in m && m[d] > 0 && Total(Lower(m, d)) < TWO_32
    {
      DrawnIff(n);
      ModBelow(n, total);
      WinnerBelow(m, n % total, d);
    }
    if d in m && m[d] > 0 && Total(Lower(m, d)) < TWO_32 {
      DrawnIff(Total(Lower(m, d)));
      WinnerAt(m, d);
      ModBelow(Total(Lower(m, d)), total);
    }
  }

  /** `n` delegates with the largest amount that counts. */
  ghost function FullVotes(n: nat): seq<Vote>
  {
    if n == 0 then [] else FullVotes(n - 1) + [Vote(n, DELEGATE_PROOF_OF_STAKE_ENROLL_MAXIMUM_AMOUNT)]
  }

  ghost function FullWeights(n: nat): (m: map<Dest, nat>)
    ensures forall d :: d in m <==> 1 <= d <= n
    ensures forall d :: d in m ==> m[d] == 300000000
  {
    if n == 0 then map[] else FullWeights(n - 1)[n := 300000000]
  }

  lemma {:induction false} FullSelected(n: nat, enrolled: set<Dest>)
    requires forall d :: 1 <= d <= n ==> d in enrolled
    ensures Select(FullVotes(n), enrolled, Weight) == FullWeights(n)
    ensures SumOf(FullVotes(n), enrolled, Weight) == n * 300000000
  {
    if n > 0 {
      FullSelected(n - 1, enrolled);
      assert FullVotes(n)[..|FullVotes(n)| - 1] == FullVotes(n - 1);
    }
  }

  lemma {:induction false} FullTotal(n: nat)
    ensures Total(FullWeights(n)) == n * 300000000
  {
    if n > 0 {
      FullTotal(n - 1);
      TotalUpdate(FullWeights(n - 1), n, 300000000);
    }
  }

  lemma LowerFull(n: nat)
    requires n > 0
    ensures Lower(FullWeights(n), n) == FullWeights(n - 1)
  {
  }

  lemma FullNeverWins(n: nat, total: nat)
    requires n >= 16 && total == n * 300000000
    ensures !CanWin(FullWeights(n), total, n)
  {
    FullTotal(n);
    FullTotal(n - 1);
    LowerFull(n);
    CanWinIff(FullWeights(n), total, n);
  }

  /** Of sixteen or more delegates with full weight, the one with the highest address never wins. */
  lemma LastNeverWins(n: nat, enrolled: set<Dest>)
    requires n >= 16 && forall d :: 1 <= d <= n ==> d in enrolled
    ensures var m, total := Select(FullVotes(n), enrolled, Weight), SumOf(FullVotes(n), enrolled, Weight);
            total > 0 && n in m && m[n] == 300000000 && !CanWin(m, total, n)
  {
    FullSelected(n, enrolled);
    FullNeverWins(n, n * 300000000);
  }

  // ----- weights and trust from the amounts

  /** A delegate's weight is its amount in whole coins, and at most 300 million. */
  lemma WeightIs(amount: nat)
    ensures amount < 300000000 * 1000000000000000000 ==>
              Weight(amount) * 1000000000000000000 <= amount < (Weight(amount) + 1) * 1000000000000000000
    ensures amount >= 300000000 * 1000000000000000000 ==> Weight(amount) == 300000000
    ensures Weight(amount) <= 300000000
  {
  }

  /** Its trust is the amount itself, up to the same bound. */
  lemma TrustIs(amount: nat)
    ensures Capped(amount) <= amount && Capped(amount) <= 300000000 * 1000000000000000000
    ensures Capped(amount) == amount || Capped(amount) == 300000000 * 1000000000000000000
  {
  }

  lemma WeightBounded(votes: seq<Vote>, enrolled: set<Dest>, d: Dest)
    requires d in Select(votes, enrolled, Weight)
    ensures Select(votes, enrolled, Weight)[d] <= 300000000
  {
    var i := SelectLast(votes, enrolled, Weight, d);
    WeightIs(votes[i].amount);
  }

  /** How many entries of the list are of enrolled delegates. */
  ghost function EnrolledEntries(votes: seq<Vote>, enrolled: set<Dest>): nat
  {
    if votes == [] then 0 else
      EnrolledEntries(votes[..|votes| - 1], enrolled) + if votes[|votes| - 1].dest in enrolled then 1 else 0
  }

  /** Total weight and trust are bounded by the number of enrolled entries. */
  lemma {:induction false} TotalsBounded(votes: seq<Vote>, enrolled: set<Dest>)
    ensures SumOf(votes, enrolled, Weight) <= EnrolledEntries(votes, enrolled) * 300000000
    ensures SumOf(votes, enrolled, Capped) <= EnrolledEntries(votes, enrolled) * (300000000 * 1000000000000000000)
  {
    if votes != [] {
      TotalsBounded(votes[..|votes| - 1], enrolled);
      WeightIs(votes[|votes| - 1].amount);
      TrustIs(votes[|votes| - 1].amount);
    }
  }

  predicate AtBound(amount: nat)
  {
    amount >= 300000000 * 1000000000000000000
  }

  /** Raising amounts that are at the bound already changes neither weights nor totals, and so not the winner. */
  lemma {:induction false} CapIrrelevant(a: seq<Vote>, b: seq<Vote>, enrolled: set<Dest>)
    requires |a| == |b|
    requires forall i :: 0 <= i < |a| ==>
               && a[i].dest == b[i].dest
               && (a[i].amount == b[i].amount || (AtBound(a[i].amount) && AtBound(b[i].amount)))
    ensures Select(a, enrolled, Weight) == Select(b, enrolled, Weight)
    ensures SumOf(a, enrolled, Weight) == SumOf(b, enrolled, Weight)
    ensures SumOf(a, enrolled, Capped) == SumOf(b, enrolled, Capped)
  {
    if a != [] {
      CapIrrelevant(a[..|a| - 1], b[..|b| - 1], enrolled);
      WeightIs(a[|a| - 1].amount);
      WeightIs(b[|b| - 1].amount);
      assert Capped(a[|a| - 1].amount) == Capped(b[|b| - 1].amount);
    }
  }
}
