/**
 The numeric kernel: 64-bit integers next to floats, exact mixed comparison, hashing, overflow-checked
 power and overflow-safe ranges. Floats are exact reals with the two infinities and NaN.
 */
module Numeric {

  const MIN: int := -0x8000_0000_0000_0000
  const MAX: int := 0x7fff_ffff_ffff_ffff

  predicate Fits(x: int) { MIN <= x <= MAX }

  type Int64 = x: int | Fits(x)

  datatype Float = Finite(value: real) | PosInf | NegInf | NaN

  datatype Number = Int(i: Int64) | Flt(f: Float)

  // ----- comparison -----

  /** The conversion from a float in range to an integer: towards zero. */
  function Trunc(r: real): int {
    if r >= 0.0 then r.Floor else -((-r).Floor)
  }

  const NAN_ORDER := 2
  const LO: real := MIN as real
  const HI: real := -LO

  /** Order of an integer and a float: -1, 0, 1, or 2 for NaN. */
  function CompareIntFloat(i: Int64, f: Float): int {
    match f
    case NaN => NAN_ORDER
    case PosInf => -1
    case NegInf => 1
    case Finite(v) =>
      if v >= HI then -1
      else if v < LO then 1
      else
        var fi := Trunc(v);
        if i != fi then (if i < fi then -1 else 1)
        else
          var frac := v - fi as real;
          if frac > 0.0 then -1 else if frac < 0.0 then 1 else 0
  }

  function CompareFloatInt(f: Float, i: Int64): int {
    var c := CompareIntFloat(i, f);
    if c == NAN_ORDER then NAN_ORDER else -c
  }

  /** The machine's own comparison of two floats. */
  function CompareFloats(a: Float, b: Float): int {
    if a.NaN? || b.NaN? then NAN_ORDER
    else if a == b then 0
    else if a.NegInf? || b.PosInf? then -1
    else if a.PosInf? || b.NegInf? then 1
    else if a.value < b.value then -1 else 1
  }

  function Compare(a: Number, b: Number): int {
    match (a, b)
    case (Int(i), Int(j)) => if i < j then -1 else if i == j then 0 else 1
    case (Int(i), Flt(g)) => CompareIntFloat(i, g)
    case (Flt(f), Int(j)) => CompareFloatInt(f, j)
    case (Flt(f), Flt(g)) => CompareFloats(f, g)
  }

  predicate Less(a: Number, b: Number) { Compare(a, b) < 0 }

  predicate LessEqual(a: Number, b: Number) { Compare(a, b) <= 0 }

  predicate Greater(a: Number, b: Number) { Compare(a, b) == 1 }

  predicate GreaterEqual(a: Number, b: Number) { Compare(a, b) == 0 || Compare(a, b) == 1 }

  predicate Equal(a: Number, b: Number) { Compare(a, b) == 0 }

  predicate IsNaN(a: Number) { a.Flt? && a.f.NaN? }

  /** The number on the extended real line: infinities outside, finite values by their real value. */
  predicate ExactLess(a: Number, b: Number) {
    if IsNaN(a) || IsNaN(b) then false
    else if a == Flt(NegInf) then b != Flt(NegInf)
    else if a == Flt(PosInf) || b == Flt(NegInf) then false
    else b == Flt(PosInf) || RealOf(a) < RealOf(b)
  }

  function RealOf(a: Number): real {
    match a
    case Int(i) => i as real
    case Flt(Finite(v)) => v
    case _ => 0.0
  }

  lemma TruncBounds(v: real)
    ensures v >= 0.0 ==> Trunc(v) as real <= v < Trunc(v) as real + 1.0
    ensures v < 0.0 ==> Trunc(v) as real - 1.0 < v <= Trunc(v) as real
  {
    if v < 0.0 {
      var w := -v;
      assert w.Floor as real <= w < w.Floor as real + 1.0;
    }
  }

  /** Each comparison is the exact one on the extended reals; NaN compares to nothing. */
  lemma ComparisonsAreExact(a: Number, b: Number)
    ensures Less(a, b) <==> ExactLess(a, b)
    ensures Greater(a, b) <==> ExactLess(b, a)
    ensures LessEqual(a, b) <==> !IsNaN(a) && !IsNaN(b) && !ExactLess(b, a)
    ensures GreaterEqual(a, b) <==> !IsNaN(a) && !IsNaN(b) && !ExactLess(a, b)
    ensures Equal(a, b) <==> !IsNaN(a) && !IsNaN(b) && !ExactLess(a, b) && !ExactLess(b, a)
  {
    match (a, b)
    case (Int(i), Flt(Finite(v))) => TruncBounds(v);
    case (Flt(Finite(v)), Int(j)) => TruncBounds(v);
    case _ =>
  }

  /** On numbers other than NaN the order is total, transitive and agrees with equality. */
  lemma TotalPreorder(a: Number, b: Number, c: Number)
    requires !IsNaN(a) && !IsNaN(b) && !IsNaN(c)
    ensures LessEqual(a, b) || LessEqual(b, a)
    ensures LessEqual(a, b) && LessEqual(b, c) ==> LessEqual(a, c)
    ensures LessEqual(a, b) && LessEqual(b, a) <==> Equal(a, b)
    ensures Less(a, b) <==> LessEqual(a, b) && !LessEqual(b, a)
  {
    ComparisonsAreExact(a, b);
    ComparisonsAreExact(b, a);
    ComparisonsAreExact(b, c);
    ComparisonsAreExact(a, c);
  }

  // ----- hashing -----

  /** `hash<numeric>`, for any hash of integers and any hash of floats. */
  function Hash(n: Number, hashInt: int -> int, hashFloat: Float -> int): int {
    match n
    case Int(i) => hashInt(i)
    case Flt(Finite(v)) =>
      if v == Trunc(v) as real && LO <= v < HI then hashInt(Trunc(v)) else hashFloat(Finite(v))
    case Flt(f) => hashFloat(f)
  }

  /** Equal numbers hash alike, whether stored as integer or float. */
  lemma EqualNumbersHashEqually(a: Number, b: Number, hashInt: int -> int, hashFloat: Float -> int)
    requires Equal(a, b)
    ensures Hash(a, hashInt, hashFloat) == Hash(b, hashInt, hashFloat)
  {
    match (a, b)
    case (Int(i), Flt(Finite(v))) => TruncBounds(v);
    case (Flt(Finite(v)), Int(j)) => TruncBounds(v);
    case _ =>
  }

  // ----- integer power -----

  function Pow(base: int, exp: nat): int {
    if exp == 0 then 1 else base * Pow(base, exp - 1)
  }

  /** Division towards zero. */
  function TruncDiv(a: int, b: int): int
    requires b != 0
  {
    if (a >= 0) == (b > 0) then Abs(a) / Abs(b) else -(Abs(a) / Abs(b))
  }

  function Abs(x: int): nat { if x >= 0 then x else -x }

  lemma DivBounds(x: nat, y: nat)
    requires y > 0
    ensures y * (x / y) <= x < y * (x / y) + y
  {
  }

  /** x > n / y (in integers) says exactly that x * y exceeds n. */
  lemma ExceedsQuotient(x: nat, y: nat, n: nat)
    requires y > 0
    ensures x > n / y <==> x * y > n
  {
    var q := n / y;
    DivBounds(n, y);
    if x > q {
      assert x * y >= (q + 1) * y == q * y + y;
    } else {
      assert x * y <= q * y;
    }
  }

  const SMALL := 0x4000_0000

  lemma SmallProduct(a: int, b: int)
    requires -SMALL <= a <= SMALL && -SMALL <= b <= SMALL
    ensures Fits(a * b)
  {
    var x, y := Abs(a), Abs(b);
    assert x * y <= SMALL * y <= SMALL * SMALL;
    assert a * b == x * y || a * b == -(x * y);
  }

  /** The sign-aware overflow test of the power loop. */
  predicate WouldOverflow(a: Int64, b: Int64) {
    if a == 0 || b == 0 || a == 1 || b == 1 then false
    else if -SMALL <= a <= SMALL && -SMALL <= b <= SMALL then false
    else if a > 0 then (if b > 0 then a > TruncDiv(MAX, b) else b < TruncDiv(MIN, a))
    else if b > 0 then a < TruncDiv(MIN, b)
    else a < TruncDiv(MAX, b)
  }

  lemma SameSign(a: Int64, b: Int64)
    requires (a > 0) == (b > 0) && a != 0 && b != 0
    ensures a * b == Abs(a) * Abs(b)
    ensures Abs(a) > MAX / Abs(b) <==> a * b > MAX
  {
    ExceedsQuotient(Abs(a), Abs(b), MAX);
  }

  lemma OppositeSigns(a: Int64, b: Int64)
    requires a > 0 > b
    ensures a * b == -(Abs(b) * a)
    ensures Abs(b) > -MIN / a <==> a * b < MIN
  {
    ExceedsQuotient(Abs(b), a, -MIN);
  }

  /** The test decides exactly whether the product leaves the 64-bit range. */
  lemma OverflowTestIsExact(a: Int64, b: Int64)
    ensures WouldOverflow(a, b) <==> !Fits(a * b)
  {
    if a == 0 || b == 0 || a == 1 || b == 1 {
    } else if -SMALL <= a <= SMALL && -SMALL <= b <= SMALL {
      SmallProduct(a, b);
    } else if (a > 0) == (b > 0) {
      SameSign(a, b);
      assert Abs(a) * Abs(b) >= 0;
    } else if a > 0 {
      OppositeSigns(a, b);
      assert Abs(b) * a >= 0;
    } else {
      OppositeSigns(b, a);
      assert a * b == b * a;
      assert Abs(a) * b >= 0;
    }
  }

  lemma {:induction false} PowAdd(base: int, m: nat, n: nat)
    ensures Pow(base, m + n) == Pow(base, m) * Pow(base, n)
  {
    if m > 0 {
      PowAdd(base, m - 1, n);
      assert base * (Pow(base, m - 1) * Pow(base, n)) == base * Pow(base, m - 1) * Pow(base, n);
    }
  }

  lemma {:induction false} PowSquare(base: int, n: nat)
    ensures Pow(base, 2 * n) == Pow(base * base, n)
  {
    if n > 0 {
      PowSquare(base, n - 1);
      assert Pow(base, 2 * n) == base * Pow(base, 2 * n - 1) == base * (base * Pow(base, 2 * n - 2));
      assert base * (base * Pow(base, 2 * n - 2)) == (base * base) * Pow(base, 2 * (n - 1));
    }
  }

  lemma {:induction false} PowAtLeastBase(base: int, n: nat)
    requires base >= 1
    ensures Pow(base, n) >= 1 && (n > 0 ==> Pow(base, n) >= base)
  {
    if n > 0 {
      PowAtLeastBase(base, n - 1);
      assert base * Pow(base, n - 1) >= base * 1;
    }
  }

  lemma SquareMono(x: nat, y: nat)
    requires x <= y
    ensures x * x <= y * y
  {
    assert x * x <= x * y <= y * y;
  }

  /** A square is never exactly 2^63. */
  lemma SquareIsNotTheBound(b: int)
    ensures b * b != MAX + 1
  {
    assert b * b == Abs(b) * Abs(b);
    if Abs(b) <= 3037000499 {
      SquareMono(Abs(b), 3037000499);
    } else {
      SquareMono(3037000500, Abs(b));
    }
  }

  lemma NonZeroSquare(b: int)
    requires b != 0
    ensures b * b >= 1
  {
    if b > 0 { assert b * b >= b; } else { assert b * b == (-b) * (-b) >= -b; }
  }

  /** Growing a product that left the range does not bring it back. */
  lemma OutOfRangeStays(p: int, m: int)
    requires !Fits(p) && m >= 1
    ensures !Fits(p * m)
  {
    if p > MAX { assert p * m >= p; } else { assert p * m <= p; }
  }

  lemma HalfStep(result: int, base: int, half: nat)
    requires half > 0 && base != 0
    ensures base * base != 0 && result * Pow(base * base, half) == result * Pow(base, 2 * half)
  {
    NonZeroSquare(base);
    PowSquare(base, half);
  }

  lemma OddStep(result: int, base: int, exp: nat)
    requires exp % 2 == 1
    ensures result * Pow(base, exp) == result * base * Pow(base, exp - 1)
  {
    assert Pow(base, exp) == base * Pow(base, exp - 1);
    assert result * (base * Pow(base, exp - 1)) == result * base * Pow(base, exp - 1);
  }

  /** An overflowing product means that the power itself does not fit. */
  lemma ProductOverflows(result: int, base: int, exp: nat)
    requires exp % 2 == 1 && base != 0 && !Fits(result * base)
    ensures !Fits(result * Pow(base, exp))
  {
    OddStep(result, base, exp);
    PowSquare(base, exp / 2);
    NonZeroSquare(base);
    PowAtLeastBase(base * base, exp / 2);
    OutOfRangeStays(result * base, Pow(base, exp - 1));
  }

  /** So does an overflowing square that is still needed. */
  lemma SquareOverflows(result: int, base: int, half: nat)
    requires result != 0 && half > 0 && !Fits(base * base)
    ensures !Fits(result * Pow(base, 2 * half))
  {
    SquareIsNotTheBound(base);
    assert base * base >= 0;
    PowSquare(base, half);
    PowAtLeastBase(base * base, half);
    var p := Pow(base, 2 * half);
    if result > 0 { assert result * p >= p; } else { assert result * p <= -p; }
  }

  /** `std::pow` on floats is not modelled: `FloatPow` says that it was called. */
  datatype PowResult = Whole(i: Int64) | FloatPow | Infinite

  /** The squaring loop; `result` and `base` never leave the 64-bit range. */
  method PowLoop(base0: Int64, exp0: Int64) returns (r: PowResult)
    requires exp0 > 0 && base0 != 0
    ensures r == if Fits(Pow(base0, exp0)) then Whole(Pow(base0, exp0)) else FloatPow
  {
    var base: Int64, exp: nat, result: Int64 := base0, exp0, 1;
    while exp > 0
      invariant base != 0 && result != 0
      invariant result * Pow(base, exp) == Pow(base0, exp0)
    {
      ghost var half := exp / 2;
      if exp % 2 == 1 {
        OverflowTestIsExact(result, base);
        if WouldOverflow(result, base) {
          ProductOverflows(result, base, exp);
          return FloatPow;
        }
        OddStep(result, base, exp);
        assert result * base != 0;
        result := result * base;
      }
      assert result * Pow(base, 2 * half) == Pow(base0, exp0);
      exp := exp / 2;
      if exp > 0 {
        OverflowTestIsExact(base, base);
        if WouldOverflow(base, base) {
          SquareOverflows(result, base, half);
          return FloatPow;
        }
        HalfStep(result, base, half);
        base := base * base;
      }
    }
    return Whole(result);
  }

  /** The exact power whenever it fits in 64 bits, the float power otherwise. */
  method IntPow(base0: Int64, exp0: Int64) returns (r: PowResult)
    ensures exp0 >= 0 ==> r == if Fits(Pow(base0, exp0)) then Whole(Pow(base0, exp0)) else FloatPow
    ensures exp0 < 0 ==> r == if base0 == 0 then Infinite else FloatPow
  {
    if exp0 == 0 {
      return Whole(1);
    }
    if exp0 > 0 {
      UnitPowers(exp0);
    }
    if base0 == 0 {
      return if exp0 < 0 then Infinite else Whole(0);
    }
    if exp0 < 0 {
      return FloatPow;
    }
    if base0 == 1 {
      return Whole(1);
    }
    if base0 == -1 {
      return if exp0 % 2 == 1 then Whole(-1) else Whole(1);
    }
    r := PowLoop(base0, exp0);
  }

  lemma {:induction false} UnitPowers(n: nat)
    ensures Pow(1, n) == 1 && Pow(-1, n) == (if n % 2 == 1 then -1 else 1)
    ensures n > 0 ==> Pow(0, n) == 0
  {
    if n > 0 {
      UnitPowers(n - 1);
    }
  }
}
