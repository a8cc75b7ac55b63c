/** Types and finite-sum facts shared by the models. */
module Common {

  /** A 256-bit block or transaction hash; 0 is the null hash. */
  type Hash = nat

  /** A 160-bit address in its numeric order; 0 is the null address. */
  type Dest = nat

  datatype Option<+T> = None | Some(value: T)

  /** `uint256` has this many values. */
  const TWO_256: nat := 0x1_0000000000000000_0000000000000000_0000000000000000_0000000000000000

  /** `uint64` has this many values. */
  const TWO_64: nat := 0x1_0000_0000_0000_0000

  /** `uint256::operator*`, which keeps the low 256 bits. */
  function Mul256(a: nat, b: nat): (r: nat)
    ensures r <= a * b
    ensures a * b < TWO_256 ==> r == a * b
  {
    (a * b) % TWO_256
  }

  // ----- multiplication and division

  lemma MulMonotone(a: nat, b: nat, c: nat)
    requires a <= b
    ensures a * c <= b * c
  {
    assert b * c == a * c + (b - a) * c;
  }

  lemma SmallMultiple(n: int, k: int, d: int)
    requires n > 0 && -n < d < n && k * n == d
    ensures k == 0
  {
    assert k >= 1 ==> k * n >= n;
    assert k <= -1 ==> k * n <= -n;
  }

  lemma DivUnique(a: nat, n: nat, q: nat, r: nat)
    requires n > 0 && a == q * n + r && r < n
    ensures a / n == q && a % n == r
  {
    var q2, r2 := a / n, a % n;
    assert (q - q2) * n == q * n - q2 * n;
    SmallMultiple(n, q - q2, r2 - r);
  }

  lemma DivSub(a: nat, n: nat)
    requires 0 < n <= a
    ensures a / n >= 1 && (a - n) / n == a / n - 1 && (a - n) % n == a % n
  {
    var q, r := a / n, a % n;
    assert q >= 1;
    assert (q - 1) * n == q * n - n;
    DivUnique(a - n, n, q - 1, r);
  }

  lemma ModStep(h: nat, n: nat)
    requires n > 0 && h % n > 0
    ensures h > 0 && (h - 1) % n == h % n - 1
  {
    DivUnique(h - 1, n, h / n, h % n - 1);
  }

  // ----- sums over maps

  ghost function Total<K>(m: map<K, nat>): nat
  {
    if m == map[] then 0 else
      var k :| k in m;
      m[k] + Total(m - {k})
  }

  lemma {:induction false} TotalRemove<K>(m: map<K, nat>, k: K)
    requires k in m
    ensures Total(m) == m[k] + Total(m - {k})
    decreases |m|
  {
    var j :| j in m && Total(m) == m[j] + Total(m - {j});
    if j != k {
      TotalRemove(m - {j}, k);
      TotalRemove(m - {k}, j);
      assert m - {j} - {k} == m - {k} - {j};
    }
  }

  /** Overwriting one key moves the sum by the difference of the two values. */
  lemma TotalUpdate<K>(m: map<K, nat>, k: K, v: nat)
    ensures Total(m[k := v]) == Total(m) - (if k in m then m[k] else 0) + v
  {
    TotalRemove(m[k := v], k);
    assert m[k := v] - {k} == m - {k};
    if k in m {
      TotalRemove(m, k);
    } else {
      assert m - {k} == m;
    }
  }

  /** Lowering one value lowers the sum by as much. */
  lemma TotalLower<K>(m: map<K, nat>, m': map<K, nat>, k: K, d: nat)
    requires k in m && d <= m[k] && m' == m[k := m[k] - d]
    ensures Total(m') == Total(m) - d
  {
    TotalUpdate(m, k, m[k] - d);
  }

  lemma TotalAtLeast<K>(m: map<K, nat>, k: K)
    requires k in m
    ensures m[k] <= Total(m)
  {
    TotalRemove(m, k);
  }

  // ----- std::map iteration

  /** The first key of a `std::map`. */
  function Least(s: set<nat>): (k: nat)
    requires s != {}
    ensures k in s && forall j :: j in s ==> k <= j
  {
    assert exists k :: k in s && forall j :: j in s ==> k <= j by {
      var k := LeastExists(s);
    }
    var k :| k in s && forall j :: j in s ==> k <= j;
    k
  }

  lemma {:induction false} LeastExists(s: set<nat>) returns (k: nat)
    requires s != {}
    ensures k in s && forall j :: j in s ==> k <= j
    decreases |s|
  {
    k :| k in s;
    var rest := s - {k};
    forall j | j in s ensures j == k || j in rest { }
    if rest != {} {
      var m := LeastExists(rest);
      k := if k <= m then k else m;
    }
  }

  ghost predicate StrictlyAscending(s: seq<nat>)
  {
    forall i, j :: 0 <= i < j < |s| ==> s[i] < s[j]
  }

  lemma AscendingLast(s: seq<nat>)
    requires StrictlyAscending(s) && s != []
    ensures StrictlyAscending(s[..|s| - 1]) && s[|s| - 1] !in s[..|s| - 1]
    ensures forall x :: x in s <==> x in s[..|s| - 1] || x == s[|s| - 1]
  {
    assert s == s[..|s| - 1] + [s[|s| - 1]];
  }

  lemma AscendingFirst(s: seq<nat>)
    requires StrictlyAscending(s) && s != []
    ensures StrictlyAscending(s[1..]) && forall x :: x in s[1..] <==> x in s && x != s[0]
  {
    assert s == [s[0]] + s[1..];
  }

  /** The keys of a `std::map` in iteration order. */
  function Ascending(s: set<nat>): (r: seq<nat>)
    ensures forall x :: x in s <==> x in r
    ensures StrictlyAscending(r)
    ensures |r| == |s|
    decreases |s|
  {
    if s == {} then []
    else
      var k := Least(s);
      var rest := Ascending(s - {k});
      AscendingCons(s, k, rest);
      [k] + rest
  }

  lemma AscendingCons(s: set<nat>, k: nat, rest: seq<nat>)
    requires k in s && forall j :: j in s ==> k <= j
    requires StrictlyAscending(rest) && forall x :: x in s - {k} <==> x in rest
    ensures StrictlyAscending([k] + rest) && forall x :: x in s <==> x in [k] + rest
  {
    assert forall i :: 0 <= i < |rest| ==> rest[i] in s - {k};
  }

  /** The values of `m` at `keys`, added up in order. */
  ghost function SumAt(m: map<nat, nat>, keys: seq<nat>): nat
    requires forall k :: k in keys ==> k in m
  {
    if keys == [] then 0 else SumAt(m, keys[..|keys| - 1]) + m[keys[|keys| - 1]]
  }

  /** Summing a map in iteration order gives its total. */
  lemma {:induction false} AscendingTotal(m: map<nat, nat>, keys: seq<nat>)
    requires StrictlyAscending(keys)
    requires forall k :: k in keys ==> k in m
    requires |keys| == |m|
    ensures SumAt(m, keys) == Total(m)
    decreases |keys|
  {
    if keys != [] {
      var n := |keys| - 1;
      var rest := m - {keys[n]};
      assert rest.Keys == m.Keys - {keys[n]};
      forall k | k in keys[..n] ensures k in rest && m[k] == rest[k] {
        var i :| 0 <= i < n && keys[i] == k;
      }
      AscendingTotal(rest, keys[..n]);
      SumAtAgree(m, rest, keys[..n]);
      TotalRemove(m, keys[n]);
    }
  }

  lemma {:induction false} SumAtAgree(m: map<nat, nat>, m': map<nat, nat>, keys: seq<nat>)
    requires forall k :: k in keys ==> k in m && k in m' && m[k] == m'[k]
    ensures SumAt(m, keys) == SumAt(m', keys)
  {
    if keys != [] {
      SumAtAgree(m, m', keys[..|keys| - 1]);
    }
  }
}
