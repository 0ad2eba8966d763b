/**
 * Decimal arithmetic as Python's `decimal` performs it, over scaled integers: tonnage in 10^-3,
 * prices and money in 10^-6, products in 10^-9.
 */
module Decimals {
  import opened Prelude

  function Abs(n: int): nat {
    if n < 0 then -n else n
  }

  /** ROUND_HALF_EVEN of n/d as the library computes it: round the magnitude, then restore the sign. */
  function HalfEven(n: int, d: nat): int
    requires d > 0
  {
    var q, r := Abs(n) / d, Abs(n) % d;
    var m := if 2 * r < d || (2 * r == d && q % 2 == 0) then q else q + 1;
    if n < 0 then -m else m
  }

  /** roundTiesToEven (section 4.3.1 of IEEE 754-2008): nearest, and even when two are equally near. */
  predicate IsNearestEven(n: int, d: nat, r: int) {
    && 2 * Abs(n - r * d) <= d
    && (2 * Abs(n - r * d) == d ==> r % 2 == 0)
  }

  lemma DivMod(n: nat, d: nat)
    requires d > 0
    ensures n == (n / d) * d + n % d && 0 <= n % d < d
  {
  }

  lemma HalfEvenIsNearest(n: int, d: nat)
    requires d > 0
    ensures IsNearestEven(n, d, HalfEven(n, d))
  {
    var q, r := Abs(n) / d, Abs(n) % d;
    DivMod(Abs(n), d);
    assert (q + 1) * d == q * d + d;
    assert (-q) * d == -(q * d) && (-(q + 1)) * d == -((q + 1) * d);
  }

  /** No other integer qualifies, so the specification determines the result. */
  lemma NearestIsUnique(n: int, d: nat, r: int, s: int)
    requires d > 0 && IsNearestEven(n, d, r) && IsNearestEven(n, d, s)
    ensures r == s
  {
    if r < s {
      NearestGap(n, d, r, s);
    } else if s < r {
      NearestGap(n, d, s, r);
    }
  }

  lemma NearestGap(n: int, d: nat, r: int, s: int)
    requires d > 0 && r < s && 2 * Abs(n - r * d) <= d && 2 * Abs(n - s * d) <= d
    ensures s == r + 1 && 2 * Abs(n - r * d) == d == 2 * Abs(n - s * d)
  {
    assert s * d - r * d == (s - r) * d;
    if s - r >= 2 {
      assert (s - r) * d >= 2 * d by { MulMonotone(2, s - r, d); }
    }
  }

  lemma MulMonotone(a: int, b: int, d: nat)
    requires a <= b
    ensures a * d <= b * d
  {
  }

  lemma HalfEvenSpec(n: int, d: nat, r: int)
    requires d > 0
    ensures r == HalfEven(n, d) <==> IsNearestEven(n, d, r)
  {
    HalfEvenIsNearest(n, d);
    if IsNearestEven(n, d, r) {
      NearestIsUnique(n, d, r, HalfEven(n, d));
    }
  }

  lemma HalfEvenMonotone(a: int, b: int, d: nat)
    requires d > 0 && a <= b
    ensures HalfEven(a, d) <= HalfEven(b, d)
  {
    HalfEvenIsNearest(a, d);
    HalfEvenIsNearest(b, d);
    NearestMonotone(a, b, d, HalfEven(a, d), HalfEven(b, d));
  }

  lemma NearestMonotone(a: int, b: int, d: nat, r: int, s: int)
    requires d > 0 && a <= b && IsNearestEven(a, d, r) && IsNearestEven(b, d, s)
    ensures r <= s
  {
    if s < r {
      MulMonotone(s + 1, r, d);
      assert (s + 1) * d == s * d + d;
      assert a == b;
      NearestIsUnique(a, d, r, s);
    }
  }

  lemma HalfEvenOdd(n: int, d: nat)
    requires d > 0
    ensures HalfEven(-n, d) == -HalfEven(n, d)
  {
  }

  /** A value already on the grid is left alone, so quantising twice is quantising once. */
  lemma HalfEvenExact(k: int, d: nat)
    requires d > 0
    ensures HalfEven(k * d, d) == k
    ensures forall n :: HalfEven(HalfEven(n, d) * d, d) == HalfEven(n, d)
  {
    assert Abs(k * d - k * d) == 0;
    HalfEvenSpec(k * d, d, k);
    forall n ensures HalfEven(HalfEven(n, d) * d, d) == HalfEven(n, d) {
      var r := HalfEven(n, d);
      assert Abs(r * d - r * d) == 0;
      HalfEvenSpec(r * d, d, r);
    }
  }

  // ---- Decimals of any scale ----

  /** coefficient * 10^-scale */
  datatype Decimal = Decimal(coefficient: int, scale: nat)

  function Pow10(k: nat): (p: nat)
    ensures p > 0
  {
    if k == 0 then 1 else 10 * Pow10(k - 1)
  }

  /** quantize_money and quantize_price, in 10^-6. */
  function QuantizeMoney(d: Decimal): int {
    HalfEven(d.coefficient * 1000000, Pow10(d.scale))
  }

  /** A value already held in micro-dollars. */
  function Micro(n: int): Decimal {
    Decimal(n, 6)
  }

  lemma QuantizeMicro(n: int)
    ensures QuantizeMoney(Micro(n)) == n
  {
  }

  // ---- The 28-digit context ----

  const TEN28 := 10000000000000000000000000000
  const TEN27 := 1000000000000000000000000000
  const TEN18 := 1000000000000000000

  /** Round to 28 significant digits: the smallest power of ten that leaves at most 28 digits. */
  function ContextRoundAt(p: int, unit: nat): int
    requires unit > 0
    decreases Abs(p) - unit
  {
    if Abs(p) < TEN28 * unit then HalfEven(p, unit) * unit else ContextRoundAt(p, 10 * unit)
  }

  /** The default context's result for an exact value `p` (in any scale). */
  function ContextRound(p: int): int {
    ContextRoundAt(p, 1)
  }

  /**
   * `(quantity * price).quantize(Decimal("0.000001"), ROUND_HALF_EVEN)` with quantity in 10^-3 and
   * price in 10^-6: the product is first rounded to the context's 28 digits, then quantised, and
   * the library refuses a result of more than 28 digits.
   */
  function LegAmount(quantity: int, price: int): Option<int> {
    var a := HalfEven(ContextRound(quantity * price), 1000);
    if Abs(a) < TEN28 then Some(a) else None
  }

  /** `quantize` refuses a result of more than 28 digits. */
  function Quantized(d: Decimal): Option<int> {
    if Abs(QuantizeMoney(d)) < TEN28 then Some(QuantizeMoney(d)) else None
  }

  /** A column of type Numeric(18, 6). */
  predicate FitsMoney(a: int) {
    Abs(a) < TEN18
  }

  lemma ContextRoundExact(p: int)
    requires Abs(p) < TEN28
    ensures ContextRound(p) == p
  {
  }

  /** Rounding to 28 digits never halves a magnitude. */
  lemma {:induction false} ContextRoundKeepsMagnitude(p: int, unit: nat)
    requires unit > 0 && 10 * Abs(p) >= TEN28 * unit
    ensures 2 * Abs(ContextRoundAt(p, unit)) >= Abs(p)
    decreases Abs(p) - unit
  {
    if Abs(p) < TEN28 * unit {
      HalfEvenIsNearest(p, unit);
      assert 2 * Abs(p - HalfEven(p, unit) * unit) <= unit;
    } else {
      ContextRoundKeepsMagnitude(p, 10 * unit);
    }
  }

  /**
   * No double rounding: for every quantity and every price, an amount the money column can store is
   * the half-even rounding of the exact product, because the context only rounds products whose
   * amount is far too large to store.
   */
  lemma StorableAmountIsExact(quantity: int, price: int)
    requires LegAmount(quantity, price).Some? && FitsMoney(LegAmount(quantity, price).value)
    ensures ContextRound(quantity * price) == quantity * price
    ensures IsNearestEven(quantity * price, 1000, LegAmount(quantity, price).value)
  {
    var p := quantity * price;
    if Abs(p) >= TEN28 {
      ContextRoundKeepsMagnitude(p, 1);
      HalfEvenIsNearest(ContextRound(p), 1000);
    } else {
      ContextRoundExact(p);
      HalfEvenIsNearest(p, 1000);
    }
  }

  /** The bound is needed: 100000000.001 t at 100000000000.000501 is rounded twice, and differently. */
  lemma LargeAmountsRoundTwice()
    ensures var q, p := 100000000001, 100000000000000501;
            && LegAmount(q, p).Some?
            && !IsNearestEven(q * p, 1000, LegAmount(q, p).value)
  {
  }

  // ---- What the context keeps ----

  /** At most 28 significant digits. */
  ghost predicate Fits28(p: int) {
    exists c, k: nat :: Abs(c) < TEN28 && p == c * Pow10(k)
  }

  lemma GridStays(n: int, unit: nat)
    requires unit > 0 && Abs(n * unit) < TEN28 * unit
    ensures ContextRoundAt(n * unit, unit) == n * unit
  {
    HalfEvenExact(n, unit);
  }

  lemma ScaledMagnitude(n: int, unit: nat)
    requires Abs(n) < TEN28 && unit > 0
    ensures Abs(n * unit) < TEN28 * unit
  {
    MulMonotone(n, TEN28 - 1, unit);
    MulMonotone(1 - TEN28, n, unit);
    assert (TEN28 - 1) * unit == TEN28 * unit - unit;
    assert (1 - TEN28) * unit == unit - TEN28 * unit;
  }

  lemma ScaleUp(c: int, k: nat, unit: nat)
    ensures c * Pow10(k + 1) * unit == c * Pow10(k) * (10 * unit)
  {
  }

  lemma {:induction false} ShortStays(c: int, k: nat, unit: nat)
    requires Abs(c) < TEN28 && unit > 0
    ensures ContextRoundAt(c * Pow10(k) * unit, unit) == c * Pow10(k) * unit
    decreases k
  {
    if Abs(c * Pow10(k) * unit) < TEN28 * unit {
      GridStays(c * Pow10(k), unit);
    } else if k == 0 {
      ScaledMagnitude(c, unit);
    } else {
      ScaleUp(c, k - 1, unit);
      ShortStays(c, k - 1, 10 * unit);
    }
  }

  lemma HalfEvenBound(p: int, unit: nat)
    requires unit > 0 && Abs(p) < TEN28 * unit
    ensures Abs(HalfEven(p, unit)) <= TEN28
  {
    HalfEvenMonotone(p, TEN28 * unit, unit);
    HalfEvenMonotone(-TEN28 * unit, p, unit);
    HalfEvenExact(TEN28, unit);
    HalfEvenExact(-TEN28, unit);
  }

  /** What the context returns, written with at most 28 digits. */
  lemma {:induction false} RoundedIsShort(p: int, unit: nat) returns (c: int, k: nat)
    requires unit > 0
    ensures Abs(c) < TEN28 && ContextRoundAt(p, unit) == c * Pow10(k) * unit
    decreases Abs(p) - unit
  {
    if Abs(p) < TEN28 * unit {
      HalfEvenBound(p, unit);
      c, k := HalfEven(p, unit), 0;
      if Abs(c) == TEN28 {
        c, k := c / 10, 1;
        assert Pow10(1) == 10 * Pow10(0);
      }
    } else {
      c, k := RoundedIsShort(p, 10 * unit);
      ScaleUp(c, k, unit);
      k := k + 1;
    }
  }

  /** The context leaves alone exactly the values of at most 28 significant digits. */
  lemma ContextRoundFixedIff(p: int)
    ensures ContextRound(p) == p <==> Fits28(p)
    ensures Abs(p) < TEN28 ==> Fits28(p)
    ensures Fits28(ContextRound(p))
  {
    var c, k := RoundedIsShort(p, 1);
    assert ContextRound(p) == c * Pow10(k);
    if Fits28(p) {
      var c, k: nat :| Abs(c) < TEN28 && p == c * Pow10(k);
      ShortStays(c, k, 1);
    }
    if Abs(p) < TEN28 {
      assert p == p * Pow10(0);
    }
  }

  /** `r` units is `p` rounded to the unit, which is the smallest power of ten leaving at most 28 digits. */
  ghost predicate RoundsTo(p: int, k: nat, r: int) {
    IsNearestEven(p, Pow10(k), r) && Abs(p) < TEN28 * Pow10(k) && (k > 0 ==> Abs(p) >= TEN28 * Pow10(k - 1))
  }

  lemma {:induction false} ContextRoundsFrom(p: int, from: nat) returns (k: nat, r: int)
    requires from > 0 ==> Abs(p) >= TEN28 * Pow10(from - 1)
    ensures RoundsTo(p, k, r) && ContextRoundAt(p, Pow10(from)) == r * Pow10(k)
    decreases Abs(p) - Pow10(from)
  {
    if Abs(p) < TEN28 * Pow10(from) {
      k, r := from, HalfEven(p, Pow10(from));
      HalfEvenIsNearest(p, Pow10(from));
    } else {
      assert Pow10(from + 1) == 10 * Pow10(from);
      k, r := ContextRoundsFrom(p, from + 1);
    }
  }

  /** The context rounds every value once, half to even, to 28 significant digits. */
  lemma ContextRoundSpec(p: int) returns (k: nat, r: int)
    ensures RoundsTo(p, k, r) && ContextRound(p) == r * Pow10(k)
  {
    assert Pow10(0) == 1;
    k, r := ContextRoundsFrom(p, 0);
  }

  lemma {:induction false} PowMonotone(a: nat, b: nat)
    requires a <= b
    ensures Pow10(a) <= Pow10(b)
    decreases b
  {
    if a < b { PowMonotone(a, b - 1); }
  }

  lemma SmallPowers()
    ensures Pow10(0) == 1 && Pow10(1) == 10 && Pow10(2) == 100 && Pow10(3) == 1000
  {
  }

  /** A product of more digits than that keeps its leading digit's magnitude. */
  lemma LongProductStaysLong(p: int, k: nat, r: int)
    requires RoundsTo(p, k, r) && k > 3
    ensures Abs(r * Pow10(k)) >= TEN28 * 1000
  {
    SmallPowers();
    var unit := Pow10(k - 1);
    PowMonotone(3, k - 1);
    assert Pow10(k) == 10 * unit;
    if p >= 0 {
      NearestMonotone(TEN27 * (10 * unit), p, 10 * unit, TEN27, r) by { assert TEN27 * (10 * unit) - TEN27 * (10 * unit) == 0; }
      MulMonotone(TEN27, r, 10 * unit);
    } else {
      NearestMonotone(p, -TEN27 * (10 * unit), 10 * unit, r, -TEN27) by { assert -TEN27 * (10 * unit) - -TEN27 * (10 * unit) == 0; }
      MulMonotone(r, -TEN27, 10 * unit);
    }
  }

  /** The library refuses a leg's amount exactly from half a unit below 10^28 micro-dollars on. */
  lemma LegAmountRefusedIff(quantity: int, price: int)
    ensures LegAmount(quantity, price).None? <==> Abs(quantity * price) >= TEN28 * 1000 - 500
  {
    var p := quantity * price;
    var k, r := ContextRoundSpec(p);
    SmallPowers();
    HalfEvenIsNearest(ContextRound(p), 1000);
    if k > 3 {
      LongProductStaysLong(p, k, r);
      PowMonotone(3, k - 1);
    } else if k == 3 {
      HalfEvenExact(r, 1000);
    }
  }

  /** `a` is the product rounded to 28 digits and then to the thousandth. */
  ghost predicate RoundsTwiceTo(p: int, a: int) {
    exists k: nat, r :: RoundsTo(p, k, r) && IsNearestEven(r * Pow10(k), 1000, a)
  }

  lemma RoundsToOne(p: int, k: nat, r: int, j: nat, s: int)
    requires RoundsTo(p, k, r) && RoundsTo(p, j, s)
    ensures k == j && r == s
  {
    if k < j {
      PowMonotone(k, j - 1);
    } else if j < k {
      PowMonotone(j, k - 1);
    } else {
      NearestIsUnique(p, Pow10(k), r, s);
    }
  }

  /** A leg's amount is that, where it is not refused. */
  lemma LegAmountIff(quantity: int, price: int, a: int)
    ensures LegAmount(quantity, price) == Some(a) <==>
              RoundsTwiceTo(quantity * price, a) && Abs(quantity * price) < TEN28 * 1000 - 500
  {
    var p := quantity * price;
    LegAmountRefusedIff(quantity, price);
    var k, r := ContextRoundSpec(p);
    HalfEvenIsNearest(ContextRound(p), 1000);
    if RoundsTwiceTo(p, a) {
      var j: nat, s :| RoundsTo(p, j, s) && IsNearestEven(s * Pow10(j), 1000, a);
      RoundsToOne(p, k, r, j, s);
      NearestIsUnique(ContextRound(p), 1000, a, HalfEven(ContextRound(p), 1000));
    }
  }

  lemma MulSign(n: int, unit: nat)
    ensures n >= 0 ==> n * unit >= 0
    ensures n <= 0 ==> n * unit <= 0
  {
  }

  lemma {:induction false} ContextRoundKeepsSign(p: int, unit: nat)
    requires unit > 0
    ensures p >= 0 ==> ContextRoundAt(p, unit) >= 0
    ensures p <= 0 ==> ContextRoundAt(p, unit) <= 0
    decreases Abs(p) - unit
  {
    if Abs(p) < TEN28 * unit {
      MulSign(HalfEven(p, unit), unit);
    } else {
      ContextRoundKeepsSign(p, 10 * unit);
    }
  }

  lemma {:induction false} ContextRoundOdd(p: int, unit: nat)
    requires unit > 0
    ensures ContextRoundAt(-p, unit) == -ContextRoundAt(p, unit)
    decreases Abs(p) - unit
  {
    if Abs(p) < TEN28 * unit {
      HalfEvenOdd(p, unit);
    } else {
      ContextRoundOdd(p, 10 * unit);
    }
  }

  function Sum(xs: seq<int>): int {
    if xs == [] then 0 else Sum(xs[..|xs| - 1]) + xs[|xs| - 1]
  }

  function Magnitude(xs: seq<int>): nat {
    if xs == [] then 0 else Magnitude(xs[..|xs| - 1]) + Abs(xs[|xs| - 1])
  }

  /** Python's sum(): every addition is rounded to the context. */
  function RoundedSum(xs: seq<int>): int {
    if xs == [] then 0 else ContextRound(RoundedSum(xs[..|xs| - 1]) + xs[|xs| - 1])
  }

  /** Every running total of `xs` has at most 28 significant digits. */
  ghost predicate RunningTotalsFit(xs: seq<int>) {
    Fits28(Sum(xs)) && (xs != [] ==> RunningTotalsFit(xs[..|xs| - 1]))
  }

  /** Every running total as computed is the exact one. */
  ghost predicate RunningTotalsExact(xs: seq<int>) {
    RoundedSum(xs) == Sum(xs) && (xs != [] ==> RunningTotalsExact(xs[..|xs| - 1]))
  }

  lemma LastTotalExactIff(xs: seq<int>)
    requires xs != [] && RoundedSum(xs[..|xs| - 1]) == Sum(xs[..|xs| - 1])
    ensures RoundedSum(xs) == Sum(xs) <==> Fits28(Sum(xs))
  {
    ContextRoundFixedIff(Sum(xs));
  }

  /** Every running total is exact if and only if every exact running total has at most 28 digits. */
  lemma {:induction false} RunningTotalsExactIff(xs: seq<int>)
    ensures RunningTotalsExact(xs) <==> RunningTotalsFit(xs)
  {
    if xs == [] {
      ContextRoundFixedIff(0);
    } else {
      var before := xs[..|xs| - 1];
      RunningTotalsExactIff(before);
      if RunningTotalsExact(before) {
        LastTotalExactIff(xs);
      }
    }
  }

  /** A sum whose terms have a total magnitude below 10^28 units is exact. */
  lemma {:induction false} SmallSumIsExact(xs: seq<int>)
    requires Magnitude(xs) < TEN28
    ensures RoundedSum(xs) == Sum(xs) && Abs(Sum(xs)) <= Magnitude(xs)
  {
    if xs == [] {
    } else {
      SmallSumIsExact(xs[..|xs| - 1]);
      ContextRoundExact(Sum(xs));
    }
  }

  /** And a larger one need not be: the unit is lost. */
  lemma LargeSumRounds()
    ensures RoundedSum([TEN28, 1]) == TEN28 == Sum([TEN28, 1]) - 1
  {
    assert [TEN28, 1][..1] == [TEN28];
    assert RoundedSum([TEN28]) == ContextRound(0 + TEN28) == TEN28;
    assert Sum([TEN28]) == TEN28;
    assert ContextRoundAt(TEN28 + 1, 10) == HalfEven(TEN28 + 1, 10) * 10;
  }

  lemma FittingSumIsExact(xs: seq<int>)
    requires RunningTotalsFit(xs)
    ensures RoundedSum(xs) == Sum(xs)
  {
    RunningTotalsExactIff(xs);
  }

  lemma {:induction false} SumIsBelowMagnitude(xs: seq<int>)
    ensures Abs(Sum(xs)) <= Magnitude(xs)
  {
    if xs == [] {
    } else {
      SumIsBelowMagnitude(xs[..|xs| - 1]);
    }
  }

  /** Terms whose magnitudes add up to less than 10^28 units have running totals that fit. */
  lemma {:induction false} SmallTermsFit(xs: seq<int>)
    requires Magnitude(xs) < TEN28
    ensures RunningTotalsFit(xs)
  {
    SumIsBelowMagnitude(xs);
    ContextRoundFixedIff(Sum(xs));
    if xs == [] {
    } else {
      SmallTermsFit(xs[..|xs| - 1]);
    }
  }

  /** A rounded value of fewer than 29 digits was not rounded. */
  lemma ShortResultIsExact(p: int)
    requires Abs(ContextRound(p)) < TEN28
    ensures ContextRound(p) == p
  {
    if Abs(p) < TEN28 {
      ContextRoundExact(p);
    } else {
      RoundingKeepsLength(p, 10);
    }
  }

  lemma HalfEvenAtLeast(p: int, n: nat, unit: nat)
    requires unit > 0 && n * unit <= Abs(p)
    ensures Abs(HalfEven(p, unit)) >= n
  {
    HalfEvenExact(n, unit);
    HalfEvenMonotone(n * unit, Abs(p), unit);
    HalfEvenOdd(p, unit);
  }

  lemma ScaledAtLeast(h: int, n: nat, unit: nat)
    requires Abs(h) >= n
    ensures Abs(h * unit) >= n * unit
  {
    MulMonotone(n, Abs(h), unit);
    assert Abs(h * unit) == Abs(h) * unit;
  }

  /** Rounding to a power of ten never brings a value of at least 10^28 below 10^28. */
  lemma {:induction false} RoundingKeepsLength(p: int, unit: nat)
    requires unit >= 10 && TEN27 * unit <= Abs(p)
    ensures Abs(ContextRoundAt(p, unit)) >= TEN28
    decreases Abs(p) - unit
  {
    if Abs(p) < TEN28 * unit {
      HalfEvenAtLeast(p, TEN27, unit);
      ScaledAtLeast(HalfEven(p, unit), TEN27, unit);
    } else {
      RoundingKeepsLength(p, 10 * unit);
    }
  }
}
