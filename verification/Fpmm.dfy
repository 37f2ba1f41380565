/**
 Fixed-product market maker arithmetic, written twice in the source: the funding branch of the
 market parser multiplies all other amounts, the chance refresher divides the product of all
 balances by each balance. Token amounts are exact integers, prices exact fractions.
 */
module Fpmm {
  import opened Option

  function Product(b: seq<nat>): nat {
    if |b| == 0 then 1 else b[0] * Product(b[1..])
  }

  /** The product of all entries but the i-th. */
  function ProductExcept(b: seq<nat>, i: nat): nat
    requires i < |b|
  {
    if i == 0 then Product(b[1..]) else b[0] * ProductExcept(b[1..], i - 1)
  }

  function Others(b: seq<nat>): (ns: seq<nat>)
    ensures |ns| == |b| && forall i :: 0 <= i < |b| ==> ns[i] == ProductExcept(b, i)
  {
    seq(|b|, i requires 0 <= i < |b| => ProductExcept(b, i))
  }

  function Sum(ns: seq<nat>): nat {
    if |ns| == 0 then 0 else Sum(ns[..|ns| - 1]) + ns[|ns| - 1]
  }

  predicate Positive(b: seq<nat>) {
    forall i :: 0 <= i < |b| ==> b[i] > 0
  }

  // ---------------------------------------------------------------- one formula

  lemma {:induction false} TimesOthers(b: seq<nat>, i: nat)
    requires i < |b|
    ensures b[i] * ProductExcept(b, i) == Product(b)
  {
    if i == 0 {
    } else {
      TimesOthers(b[1..], i - 1);
      Swap(b[i], b[0], ProductExcept(b[1..], i - 1));
    }
  }

  lemma Swap(x: nat, y: nat, z: nat)
    ensures x * (y * z) == y * (x * z)
  {}

  lemma {:induction false} ProductPositive(b: seq<nat>)
    requires Positive(b)
    ensures Product(b) > 0
  {
    if |b| == 0 {
    } else {
      ProductPositive(b[1..]);
    }
  }

  lemma OtherPositive(b: seq<nat>, i: nat)
    requires Positive(b) && i < |b|
    ensures ProductExcept(b, i) > 0
  {
    TimesOthers(b, i);
    ProductPositive(b);
  }

  lemma Monotone(d: nat, x: int, y: int)
    requires x <= y
    ensures d * x <= d * y
  {
    assert d * y - d * x == d * (y - x);
  }

  lemma QuotientIs(z: nat, d: nat, q: nat)
    requires d > 0 && d * q <= z < d * (q + 1)
    ensures z / d == q
  {
    var r := z / d;
    assert d * r <= z < d * (r + 1);
    if r < q { Monotone(d, r + 1, q); }
    if q < r { Monotone(d, q + 1, r); }
  }

  lemma QuotientIsFactor(x: nat, y: nat)
    requires x > 0
    ensures (x * y) / x == y
  {
    assert x * (y + 1) == x * y + x;
    QuotientIs(x * y, x, y);
  }

  /** Both ways of writing the numerator agree on positive balances. */
  lemma SameNumerator(b: seq<nat>, i: nat)
    requires Positive(b) && i < |b|
    ensures Product(b) / b[i] == ProductExcept(b, i)
  {
    TimesOthers(b, i);
    QuotientIsFactor(b[i], ProductExcept(b, i));
  }

  lemma {:induction false} SumPositive(ns: seq<nat>)
    requires |ns| > 0 && Positive(ns)
    ensures Sum(ns) > 0
  {}

  // ---------------------------------------------------------------- chances

  function Chance(b: seq<nat>, i: nat): real
    requires Positive(b) && i < |b|
  {
    DenominatorPositive(b);
    ProductExcept(b, i) as real / Sum(Others(b)) as real
  }

  lemma DenominatorPositive(b: seq<nat>)
    requires Positive(b) && |b| > 0
    ensures Sum(Others(b)) > 0
  {
    forall i | 0 <= i < |b| ensures Others(b)[i] > 0 { OtherPositive(b, i); }
    SumPositive(Others(b));
  }

  function ChanceSum(b: seq<nat>, n: nat): real
    requires Positive(b) && n <= |b|
  {
    if n == 0 then 0.0 else ChanceSum(b, n - 1) + Chance(b, n - 1)
  }

  lemma {:induction false} ChanceSumIs(b: seq<nat>, n: nat)
    requires Positive(b) && 0 < |b| && n <= |b|
    ensures Sum(Others(b)) > 0
    ensures ChanceSum(b, n) == Sum(Others(b)[..n]) as real / Sum(Others(b)) as real
  {
    DenominatorPositive(b);
    var d := Sum(Others(b)) as real;
    if n > 0 {
      ChanceSumIs(b, n - 1);
      assert Others(b)[..n][..n - 1] == Others(b)[..n - 1];
      AddFractions(Sum(Others(b)[..n - 1]) as real, ProductExcept(b, n - 1) as real, d);
    }
  }

  lemma AddFractions(x: real, y: real, d: real)
    requires d > 0.0
    ensures x / d + y / d == (x + y) / d
  {}

  /** The chances of all outcomes sum to one. */
  lemma ChancesSumToOne(b: seq<nat>)
    requires Positive(b) && |b| > 0
    ensures ChanceSum(b, |b|) == 1.0
  {
    ChanceSumIs(b, |b|);
    assert Others(b)[..|b|] == Others(b);
    Whole(Sum(Others(b)) as real);
  }

  lemma Whole(d: real)
    requires d > 0.0
    ensures d / d == 1.0
  {}

  /** Balance times chance is the same for every outcome. */
  lemma BalanceTimesChance(b: seq<nat>, i: nat)
    requires Positive(b) && i < |b|
    ensures Sum(Others(b)) > 0
    ensures b[i] as real * Chance(b, i) == Product(b) as real / Sum(Others(b)) as real
  {
    hide Product, Sum, Others, ProductExcept, Positive;
    DenominatorPositive(b);
    TimesOthers(b, i);
    TimesFraction(b[i], ProductExcept(b, i), Sum(Others(b)), Product(b));
  }

  lemma TimesFraction(x: nat, n: nat, d: nat, p: nat)
    requires d > 0 && x * n == p
    ensures x as real * (n as real / d as real) == p as real / d as real
  {
    var rx, rn, rd := x as real, n as real, d as real;
    assert p as real == rx * rn;
    assert rx * (rn / rd) == (rx * rn) / rd;
  }

  /** A scarcer outcome is exactly a likelier one. */
  lemma ScarcerIsLikelier(b: seq<nat>, i: nat, j: nat)
    requires Positive(b) && i < |b| && j < |b|
    ensures b[i] < b[j] <==> Chance(b, i) > Chance(b, j)
  {
    DenominatorPositive(b);
    TimesOthers(b, i);
    TimesOthers(b, j);
    OtherPositive(b, i);
    OtherPositive(b, j);
    SmallerFactor(b[i], ProductExcept(b, i), b[j], ProductExcept(b, j));
    CompareFractions(ProductExcept(b, i), ProductExcept(b, j), Sum(Others(b)));
  }

  lemma SmallerFactor(x: nat, m: nat, y: nat, n: nat)
    requires x > 0 && y > 0 && m > 0 && n > 0 && x * m == y * n
    ensures x < y <==> m > n
  {
    if x < y {
      Monotone(n, x + 1, y);
      assert n * (x + 1) == x * n + n;
      if m <= n { Monotone(x, m, n); }
    } else {
      Monotone(n, y, x);
      if m > n { TimesSuccessor(x, n); Monotone(x, n + 1, m); }
    }
  }

  lemma TimesSuccessor(x: nat, n: nat)
    ensures x * (n + 1) == x * n + x
  {}

  lemma CompareFractions(m: nat, n: nat, d: nat)
    requires d > 0
    ensures m > n <==> m as real / d as real > n as real / d as real
  {
    var x, y, z := m as real, n as real, d as real;
    assert x / z - y / z == (x - y) / z;
  }

  // ---------------------------------------------------------------- the chance refresher

  datatype ChanceRow = ChanceRow(outcome: nat, chance: real, supply: nat, totalSupply: nat)

  /** `runExecutor` once the balances are known: a zero balance makes the integer division throw, and
      then nothing is recorded. */
  method RefreshChances(outcomes: seq<nat>, balances: seq<nat>) returns (rows: Option<seq<ChanceRow>>)
    requires |balances| == |outcomes|
    ensures rows.Some? <==> Positive(balances)
    ensures rows.Some? ==> |rows.value| == |outcomes|
    ensures rows.Some? ==> forall i :: 0 <= i < |outcomes| ==>
              rows.value[i] == ChanceRow(outcomes[i], Chance(balances, i), balances[i], Sum(balances))
  {
    if |balances| == 0 { return Some([]); }
    var totalSupply := Sum(balances);
    var product := Product(balances);
    var numerators: seq<nat> := [];
    for i := 0 to |balances|
      invariant |numerators| == i && Positive(balances[..i])
      invariant forall k :: 0 <= k < i ==> numerators[k] == ProductExcept(balances, k)
    {
      if balances[i] == 0 { return None; }
      numerators := numerators + [product / balances[i]];
      TimesOthers(balances, i);
      QuotientIsFactor(balances[i], ProductExcept(balances, i));
      assert balances[..i + 1] == balances[..i] + [balances[i]];
    }
    assert balances[..|balances|] == balances && numerators == Others(balances);
    var denominator := Sum(numerators);
    DenominatorPositive(balances);
    var recorded: seq<ChanceRow> := [];
    for i := 0 to |outcomes|
      invariant |recorded| == i
      invariant forall k ::
                0 <= k < i ==> recorded[k] == ChanceRow(outcomes[k], Chance(balances, k), balances[k], totalSupply)
    {
      recorded := recorded
        + [ChanceRow(outcomes[i], numerators[i] as real / denominator as real, balances[i], totalSupply)];
    }
    rows := Some(recorded);
  }

  // ---------------------------------------------------------------- unequal funding

  function Max(a: seq<nat>): (m: nat)
    requires |a| > 0
    ensures m in a && forall i :: 0 <= i < |a| ==> a[i] <= m
  {
    if |a| == 1 then a[0] else if a[0] >= Max(a[1..]) then a[0] else Max(a[1..])
  }

  /** What a funding event books for outcome `i`: the tokens acquired times the price, rounded down;
      the price is 0 when two amounts are 0. */
  function FundAmount(a: seq<nat>, i: nat): nat
    requires i < |a|
  {
    if Sum(Others(a)) == 0 then 0 else Floor(Missing(a, i), ProductExcept(a, i), Sum(Others(a)))
  }

  /** The outcome tokens acquired. */
  function Missing(a: seq<nat>, i: nat): nat
    requires i < |a|
  {
    Max(a) - a[i]
  }

  /** `x` times the fraction `n / d`, rounded down. */
  function Floor(x: nat, n: nat, d: nat): (r: nat)
    requires d > 0
    ensures d * r <= x * n < d * r + d
  {
    NonNegative(x, n, d);
    (x * n) / d
  }

  lemma NonNegative(x: nat, n: nat, d: nat)
    requires d > 0
    ensures 0 <= (x * n) / d && d * ((x * n) / d) <= x * n < d * ((x * n) / d) + d
  {
    var z := x * n;
    assert z >= 0;
    var q := z / d;
    assert z == d * q + z % d;
    if q < 0 { Monotone(d, q, -1); }
  }

  function FundTotal(a: seq<nat>, n: nat): nat
    requires n <= |a|
  {
    if n == 0 then 0
    else FundTotal(a, n - 1) + if a[n - 1] == Max(a) then 0 else FundAmount(a, n - 1)
  }

  function FundRows(a: seq<nat>, n: nat): nat
    requires n <= |a|
  {
    if n == 0 then 0 else FundRows(a, n - 1) + if a[n - 1] == Max(a) then 0 else 1
  }

  /** `d` times the exact cost of the first `n` outcomes. */
  function ExactCost(a: seq<nat>, n: nat): int
    requires n <= |a| && |a| > 0
  {
    if n == 0 then 0 else ExactCost(a, n - 1) + Missing(a, n - 1) * ProductExcept(a, n - 1)
  }

  lemma CostStep(m: int, x: int, o: int, s: int, p: int, n: int)
    requires x * o == p
    ensures (m * s - (n - 1) * p) + (m - x) * o == m * (s + o) - n * p
  {
    assert (m - x) * o == m * o - x * o;
    assert m * (s + o) == m * s + m * o;
    assert (n - 1) * p == n * p - p;
  }

  lemma {:induction false} ExactCostIs(a: seq<nat>, n: nat)
    requires n <= |a| && |a| > 0
    ensures ExactCost(a, n) == Max(a) * Sum(Others(a)[..n]) - n * Product(a)
  {
    if n == 0 {
    } else {
      ExactCostIs(a, n - 1);
      TimesOthers(a, n - 1);
      assert Others(a)[..n][..n - 1] == Others(a)[..n - 1];
      assert Sum(Others(a)[..n]) == Sum(Others(a)[..n - 1]) + ProductExcept(a, n - 1);
      CostStep(Max(a), a[n - 1], ProductExcept(a, n - 1), Sum(Others(a)[..n - 1]), Product(a), n);
    }
  }

  /** The bounds of one more row: `d * total <= cost < d * total + d * rows`. */
  lemma RowBounds(d: nat, total: nat, rows: nat, cost: int, x: nat, n: nat)
    requires d > 0 && d * total <= cost && cost <= d * total + d * rows && (rows > 0 ==> cost < d * total + d * rows)
    ensures d * (total + Floor(x, n, d)) <= cost + x * n < d * (total + Floor(x, n, d)) + d * (rows + 1)
  {
    var r := Floor(x, n, d);
    assert d * (total + r) == d * total + d * r;
    assert d * (rows + 1) == d * rows + d;
  }

  lemma {:induction false} TotalBounds(a: seq<nat>, n: nat)
    requires n <= |a| && |a| > 0 && Sum(Others(a)) > 0
    ensures var d := Sum(Others(a));
            && d * FundTotal(a, n) <= ExactCost(a, n) <= d * FundTotal(a, n) + d * FundRows(a, n)
            && (FundRows(a, n) > 0 ==> ExactCost(a, n) < d * FundTotal(a, n) + d * FundRows(a, n))
  {
    if n > 0 {
      TotalBounds(a, n - 1);
      var d := Sum(Others(a));
      if a[n - 1] == Max(a) {
        assert Missing(a, n - 1) * ProductExcept(a, n - 1) == 0;
      } else {
        RowBounds(d, FundTotal(a, n - 1), FundRows(a, n - 1), ExactCost(a, n - 1), Missing(a, n - 1),
          ProductExcept(a, n - 1));
      }
    }
  }

  lemma {:induction false} UnequalHasRows(a: seq<nat>, n: nat)
    requires n <= |a| && |a| > 0
    ensures FundRows(a, n) == 0 <==> forall i :: 0 <= i < n ==> a[i] == Max(a)
  {
    if n == 0 {
    } else {
      UnequalHasRows(a, n - 1);
    }
  }

  lemma WholeCost(a: seq<nat>)
    requires |a| > 0
    ensures ExactCost(a, |a|) == Max(a) * Sum(Others(a)) - |a| * Product(a)
  {
    ExactCostIs(a, |a|);
    assert Others(a)[..|a|] == Others(a);
  }

  /** The amounts booked by one unequal funding event total at most `C - n * P / D` and more than
      that minus the number of rows, where C is the largest amount, n the number of outcomes, P the
      product of the amounts and D the sum of the products of the others (multiplied out by D). */
  lemma FundingBooksItsCost(a: seq<nat>)
    requires |a| > 0 && Sum(Others(a)) > 0 && exists i :: 0 <= i < |a| && a[i] != Max(a)
    ensures FundRows(a, |a|) > 0
    ensures Sum(Others(a)) * FundTotal(a, |a|) <= Max(a) * Sum(Others(a)) - |a| * Product(a)
    ensures Max(a) * Sum(Others(a)) - |a| * Product(a)
            < Sum(Others(a)) * FundTotal(a, |a|) + Sum(Others(a)) * FundRows(a, |a|)
  {
    UnequalHasRows(a, |a|);
    TotalBounds(a, |a|);
    WholeCost(a);
  }
}
