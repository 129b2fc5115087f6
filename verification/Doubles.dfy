/**
 The numbers that DOUBLE patterns stand for (IEEE 754 binary64, section 3.4), and what the comparison of patterns and
 the conversion of integers mean on them. Every finite double is a whole number of units, the unit being the least
 positive double; infinity stands one step above the largest of them. So no fractions are needed.
 */
module Doubles {
  import opened Common
  import opened Values

  function Exponent(magnitude: nat): nat {
    magnitude / TWO_52
  }

  function Fraction(magnitude: nat): nat {
    magnitude % TWO_52
  }

  /** The units in a non-negative pattern: subnormal below the first exponent, with a leading one above. */
  function Units(magnitude: nat): nat {
    if Exponent(magnitude) == 0 then Fraction(magnitude)
    else Product(TWO_52 + Fraction(magnitude), Pow2(Exponent(magnitude) - 1))
  }

  /** The number a pattern stands for, in units. */
  function Number(bits: nat): int {
    if bits < TWO_63 then Units(bits) else -(Units(Magnitude(bits)) as int)
  }

  /** The pattern of 1.0: the biased exponent 1023 and no fraction. */
  predicate IsOne(bits: nat) {
    bits < TWO_63 && Exponent(bits) == 1023 && Fraction(bits) == 0
  }

  // ---------------------------------------------------------------- order

  /** The distance to the next pattern. */
  function Step(magnitude: nat): (r: nat)
    ensures r > 0
  {
    if Exponent(magnitude) == 0 then 1 else Pow2(Exponent(magnitude) - 1)
  }

  lemma CarryUnits(p: nat)
    ensures Product(TWO_52 + (TWO_52 - 1), p) + p == Product(TWO_52, 2 * p)
  {
  }

  lemma NextUnits(magnitude: nat)
    ensures Units(magnitude + 1) == Units(magnitude) + Step(magnitude)
  {
    var e, f := Exponent(magnitude), Fraction(magnitude);
    if f + 1 < TWO_52 {
      assert Exponent(magnitude + 1) == e && Fraction(magnitude + 1) == f + 1;
      if e > 0 {
        assert Product(TWO_52 + f + 1, Pow2(e - 1)) == Product(TWO_52 + f, Pow2(e - 1)) + Pow2(e - 1);
      }
    } else {
      assert Exponent(magnitude + 1) == e + 1 && Fraction(magnitude + 1) == 0;
      if e > 0 {
        CarryUnits(Pow2(e - 1));
      } else {
        assert Pow2(0) == 1;
      }
    }
  }

  lemma {:induction false} UnitsGrow(a: nat, b: nat)
    requires a < b
    ensures Units(a) < Units(b)
    decreases b
  {
    NextUnits(b - 1);
    if a < b - 1 {
      UnitsGrow(a, b - 1);
    }
  }

  lemma UnitsOfZero(magnitude: nat)
    ensures Units(0) == 0
    ensures Units(magnitude) == 0 ==> magnitude == 0
  {
    assert Exponent(0) == 0 && Fraction(0) == 0;
    if magnitude > 0 {
      UnitsGrow(0, magnitude);
    }
  }

  /** Comparing patterns compares the numbers; the two zeros are one number. */
  lemma OrderIsOfNumbers(a: nat, b: nat)
    requires !IsNaN(a) && !IsNaN(b)
    ensures DoubleLt(a, b) <==> Number(a) < Number(b)
    ensures DoubleEq(a, b) <==> Number(a) == Number(b)
  {
    var x, y := Magnitude(a), Magnitude(b);
    UnitsOfZero(x);
    UnitsOfZero(y);
    if x < y {
      UnitsGrow(x, y);
    } else if y < x {
      UnitsGrow(y, x);
    }
  }

  // ---------------------------------------------------------------- integers as doubles

  lemma {:induction false} Pow2Sum(a: nat, b: nat)
    ensures Pow2(a + b) == Product(Pow2(a), Pow2(b))
  {
    if a > 0 {
      Pow2Sum(a - 1, b);
      assert Pow2(a + b) == 2 * Product(Pow2(a - 1), Pow2(b));
      assert Product(2 * Pow2(a - 1), Pow2(b)) == 2 * Product(Pow2(a - 1), Pow2(b));
    }
  }

  lemma Pow2Of52()
    ensures Pow2(52) == TWO_52
  {
    assert Pow2(13) == 8192;
    Pow2Sum(13, 13);
    Pow2Sum(26, 26);
  }

  lemma {:induction false} BitLengthBounds(m: nat)
    requires m > 0
    ensures Pow2(BitLength(m) - 1) <= m < Pow2(BitLength(m))
  {
    if m > 1 {
      BitLengthBounds(m / 2);
    } else {
      assert BitLength(1) == 1 + BitLength(0);
      assert Pow2(1) == 2 * Pow2(0);
    }
  }

  lemma {:induction false} Pow2Grows(a: nat, b: nat)
    requires a <= b
    ensures Pow2(a) <= Pow2(b)
    decreases b - a
  {
    if a < b {
      Pow2Grows(a, b - 1);
    }
  }

  /** A pattern put together from a significand, with or without a carry. */
  lemma UnitsOfSignificand(top: nat, s: nat)
    requires TWO_52 <= s <= 2 * TWO_52
    ensures Units((top + 1022) * TWO_52 + s) == Product(s, Pow2(top + 1022))
  {
    var magnitude := (top + 1022) * TWO_52 + s;
    if s < 2 * TWO_52 {
      assert magnitude == (top + 1023) * TWO_52 + (s - TWO_52);
      assert Exponent(magnitude) == top + 1023 && Fraction(magnitude) == s - TWO_52;
    } else {
      assert magnitude == (top + 1024) * TWO_52;
      assert Exponent(magnitude) == top + 1024 && Fraction(magnitude) == 0;
      assert Pow2(top + 1023) == 2 * Pow2(top + 1022);
      assert Product(TWO_52, 2 * Pow2(top + 1022)) == Product(2 * TWO_52, Pow2(top + 1022));
    }
  }

  function Abs(x: int): nat {
    if x < 0 then -x else x
  }

  /** How far the number of a pattern is from the integer n, in units. */
  function Distance(bits: nat, n: int, unity: nat): nat {
    Abs(Number(bits) - InUnits(n, unity))
  }

  function InUnits(n: int, unity: nat): int {
    n * Number(unity)
  }

  lemma InUnitsOpposite(n: int, unity: nat)
    ensures InUnits(-n, unity) == -InUnits(n, unity)
  {
  }

  lemma InUnitsGrow(n: int, k: int, unity: nat)
    requires n < k && Number(unity) > 0
    ensures InUnits(n, unity) < InUnits(k, unity)
  {
  }

  lemma InUnitsProduct(m: nat, unity: nat)
    requires unity < TWO_63
    ensures InUnits(m, unity) == Product(m, Number(unity))
  {
  }

  lemma OneInUnits(unity: nat, bias: nat)
    requires IsOne(unity) && bias == 1022
    ensures Number(unity) == Product(TWO_52, Pow2(bias)) == Pow2(bias + 52)
  {
    Pow2Of52();
    Pow2Sum(52, bias);
  }

  lemma ProductAssociates(a: nat, b: nat, c: nat)
    ensures Product(Product(a, b), c) == Product(a, Product(b, c))
  {
  }

  lemma ProductGrows(a: nat, b: nat, c: nat)
    ensures a <= b ==> Product(a, c) <= Product(b, c)
    ensures a < b && c > 0 ==> Product(a, c) < Product(b, c)
    ensures Product(2 * a, c) == 2 * Product(a, c)
  {
  }

  /** A short integer is shifted until its leading bit is bit 52. */
  lemma ShortSignificand(m: nat, top: nat)
    requires m > 0 && top == BitLength(m) - 1 && top <= 52
    ensures TWO_52 <= Product(m, Pow2(52 - top)) < 2 * TWO_52
  {
    BitLengthBounds(m);
    Pow2Of52();
    Pow2Sum(top, 52 - top);
    ProductGrows(Pow2(top), m, Pow2(52 - top));
    ProductGrows(m, 2 * Pow2(top), Pow2(52 - top));
    ProductGrows(Pow2(top), m, Pow2(52 - top));
  }

  lemma ShiftsAgree(top: nat, unity: nat)
    requires top <= 52 && IsOne(unity)
    ensures Product(Pow2(52 - top), Pow2(top + 1022)) == Number(unity)
  {
    Pow2Sum(52 - top, top + 1022);
    OneInUnits(unity, 1022);
  }

  /** Up to 53 bits the conversion is exact. */
  lemma ShortIsExact(m: nat, top: nat, unity: nat)
    requires m > 0 && top == BitLength(m) - 1 && top <= 52 && IsOne(unity)
    ensures Units((top + 1022) * TWO_52 + Significand(m, top)) == Product(m, Number(unity))
    ensures TWO_52 <= Significand(m, top) < 2 * TWO_52
  {
    ShortSignificand(m, top);
    UnitsOfSignificand(top, Significand(m, top));
    ProductAssociates(m, Pow2(52 - top), Pow2(top + 1022));
    ShiftsAgree(top, unity);
  }

  lemma QuotientBounds(m: nat, unit: nat, q: nat, r: nat)
    requires unit > 0 && m == Product(q, unit) + r && r < unit
    requires Product(TWO_52, unit) <= m < Product(2 * TWO_52, unit)
    ensures TWO_52 <= q < 2 * TWO_52
  {
    ProductGrows(q + 1, TWO_52, unit);
    ProductGrows(2 * TWO_52, q, unit);
    assert Product(q + 1, unit) == Product(q, unit) + unit;
  }

  lemma LongQuotient(m: nat, top: nat)
    requires m > 0 && top == BitLength(m) - 1 && top > 52
    ensures m == Product(m / Pow2(top - 52), Pow2(top - 52)) + m % Pow2(top - 52)
    ensures TWO_52 <= m / Pow2(top - 52) < 2 * TWO_52
  {
    var unit := Pow2(top - 52);
    BitLengthBounds(m);
    Pow2Of52();
    Pow2Sum(52, top - 52);
    ProductGrows(TWO_52, 0, unit);
    QuotientBounds(m, unit, m / unit, m % unit);
  }

  lemma LongUnits(top: nat, s: nat, unity: nat)
    requires top > 52 && TWO_52 <= s <= 2 * TWO_52 && IsOne(unity)
    ensures Units((top + 1022) * TWO_52 + s) == Product(s, Product(Pow2(top - 52), Number(unity)))
  {
    UnitsOfSignificand(top, s);
    OneInUnits(unity, 1022);
    Pow2Sum(top - 52, 1074);
  }

  lemma LongTarget(q: nat, r: nat, unit: nat, one: nat)
    requires r < unit && one > 0
    ensures Product(Product(q, unit) + r, one) == Product(q, Product(unit, one)) + Product(r, one)
    ensures Product(unit, one) == Product(r, one) + Product(unit - r, one)
    ensures Product(q + 1, Product(unit, one)) == Product(q, Product(unit, one)) + Product(unit, one)
    ensures 2 * r > unit ==> Product(r, one) > Product(unit - r, one)
    ensures 2 * r < unit ==> Product(r, one) < Product(unit - r, one)
    ensures 2 * r == unit ==> Product(r, one) == Product(unit - r, one)
  {
    ProductAssociates(q, unit, one);
    assert Product(Product(q, unit) + r, one) == Product(Product(q, unit), one) + Product(r, one);
    assert Product(r + (unit - r), one) == Product(r, one) + Product(unit - r, one);
    ProductGrows(unit - r, r, one);
    ProductGrows(r, unit - r, one);
  }

  /** No pattern lies between one pattern and the next. */
  lemma NothingBetween(low: nat, other: nat)
    requires low + 1 < TWO_63
    ensures Number(other) <= Units(low) || Number(other) >= Units(low + 1)
  {
    if other < low {
      UnitsGrow(other, low);
    } else if low + 1 < other < TWO_63 {
      UnitsGrow(low + 1, other);
    }
  }

  /** A pattern is as near to a positive integer as any other, and the even one of two that are equally near. */
  ghost predicate Nearest(bits: nat, n: int, unity: nat, other: nat) {
    && Distance(bits, n, unity) <= Distance(other, n, unity)
    && (Distance(bits, n, unity) == Distance(other, n, unity) && Number(other) != Number(bits) ==> bits % 2 == 0)
  }

  lemma OnePositive(unity: nat)
    requires IsOne(unity)
    ensures Number(unity) > 0
  {
    UnitsOfZero(unity);
    assert unity != 0;
  }

  lemma ShortIsNearest(m: nat, other: nat, unity: nat)
    requires m > 0 && BitLength(m) <= 53 && IsOne(unity)
    ensures Nearest(DoubleOfInt(m), m, unity, other) && Number(DoubleOfInt(m)) == InUnits(m, unity)
    ensures DoubleOfInt(m) < INFINITY_BITS
  {
    ShortIsExact(m, BitLength(m) - 1, unity);
    InUnitsProduct(m, unity);
  }

  lemma LongSignificand(m: nat, top: nat, q: nat, r: nat, unit: nat)
    requires top > 52 && unit == Pow2(top - 52) && q == m / unit && r == m % unit
    ensures Significand(m, top) == if 2 * r > unit || (2 * r == unit && q % 2 == 1) then q + 1 else q
  {
  }

  lemma EvenPattern(top: nat, s: nat)
    requires s % 2 == 0
    ensures ((top + 1022) * TWO_52 + s) % 2 == 0
  {
  }

  lemma LongRounds(m: nat, top: nat, q: nat, r: nat, unit: nat)
    requires m > 0 && 52 < top <= 63 && top == BitLength(m) - 1
    requires Significand(m, top) == if 2 * r > unit || (2 * r == unit && q % 2 == 1) then q + 1 else q
    ensures var d, low := DoubleOfInt(m), (top + 1022) * TWO_52 + q;
            && (d == low || d == low + 1)
            && (2 * r < unit ==> d == low) && (2 * r > unit ==> d == low + 1) && (2 * r == unit ==> d % 2 == 0)
  {
    if 2 * r == unit {
      EvenPattern(top, Significand(m, top));
    }
  }

  /** Of two neighbours around a target the nearer one is nearest of all that are not between them. */
  lemma NearerIsNearest(base: int, a: nat, b: nat, x: int)
    requires x <= base || x >= base + a + b
    ensures a <= b ==> a <= Abs(x - (base + a)) && (a == Abs(x - (base + a)) && x != base ==> a == b)
    ensures b <= a ==> b <= Abs(x - (base + a)) && (b == Abs(x - (base + a)) && x != base + a + b ==> a == b)
  {
  }

  lemma NegativeNumbers(bits: nat)
    ensures bits >= TWO_63 ==> Number(bits) <= 0
  {
  }

  lemma BetweenNeighbours(m: nat, top: nat, q: nat, r: nat, unit: nat, other: nat, unity: nat)
    requires 52 < top <= 63 && IsOne(unity) && Number(unity) > 0
    requires unit == Pow2(top - 52) && r < unit && m == Product(q, unit) + r && TWO_52 <= q < 2 * TWO_52
    ensures var low := (top + 1022) * TWO_52 + q;
            && low + 1 < INFINITY_BITS
            && (2 * r <= unit ==> Distance(low, m, unity) <= Distance(other, m, unity))
            && (2 * r < unit ==> Distance(low, m, unity) == Distance(other, m, unity) ==> Number(other) == Number(low))
            && (2 * r >= unit ==> Distance(low + 1, m, unity) <= Distance(other, m, unity))
            && (2 * r > unit ==> Distance(low + 1, m, unity) == Distance(other, m, unity) ==>
                  Number(other) == Number(low + 1))
  {
    var one, low := Number(unity), (top + 1022) * TWO_52 + q;
    LongTarget(q, r, unit, one);
    LongUnits(top, q, unity);
    LongUnits(top, q + 1, unity);
    NothingBetween(low, other);
    var base, a, b := Product(q, Product(unit, one)), Product(r, one), Product(unit - r, one);
    assert Number(low) == base && Number(low + 1) == base + a + b;
    InUnitsProduct(m, unity);
    NearerIsNearest(base, a, b, Number(other));
  }

  lemma ChosenIsNearest(m: nat, d: nat, top: nat, q: nat, r: nat, unit: nat, other: nat, unity: nat)
    requires 52 < top <= 63 && IsOne(unity) && Number(unity) > 0
    requires unit == Pow2(top - 52) && r < unit && m == Product(q, unit) + r && TWO_52 <= q < 2 * TWO_52
    requires var low := (top + 1022) * TWO_52 + q;
             && (d == low || d == low + 1)
             && (2 * r < unit ==> d == low) && (2 * r > unit ==> d == low + 1) && (2 * r == unit ==> d % 2 == 0)
    ensures Nearest(d, m, unity, other) && d < INFINITY_BITS
  {
    BetweenNeighbours(m, top, q, r, unit, other, unity);
  }

  lemma LongIsNearest(m: nat, other: nat, unity: nat)
    requires m > 0 && 53 < BitLength(m) <= 64 && IsOne(unity)
    ensures Nearest(DoubleOfInt(m), m, unity, other) && DoubleOfInt(m) < INFINITY_BITS
  {
    var top := BitLength(m) - 1;
    var unit := Pow2(top - 52);
    OnePositive(unity);
    LongQuotient(m, top);
    LongSignificand(m, top, m / unit, m % unit, unit);
    LongRounds(m, top, m / unit, m % unit, unit);
    ChosenIsNearest(m, DoubleOfInt(m), top, m / unit, m % unit, unit, other, unity);
  }

  // ---------------------------------------------------------------- the conversion

  lemma IntegerBits(m: nat)
    requires m <= TWO_63
    ensures BitLength(m) <= 64
  {
    Pow2Of52();
    Pow2Sum(52, 12);
    assert Pow2(12) == 4096;
    if m > 0 && BitLength(m) > 64 {
      BitLengthBounds(m);
      Pow2Grows(64, BitLength(m) - 1);
    }
  }

  function Opposite(bits: nat): nat {
    if bits < TWO_63 then bits + TWO_63 else bits - TWO_63
  }

  lemma OppositeNumber(bits: nat)
    requires Magnitude(bits) < TWO_63
    ensures Number(Opposite(bits)) == -Number(bits) && Opposite(bits) % 2 == bits % 2
  {
  }

  lemma NegativeConversion(n: int)
    requires n < 0 && DoubleOfInt(-n) < TWO_63
    ensures DoubleOfInt(n) == TWO_63 + DoubleOfInt(-n) && Number(DoubleOfInt(n)) == -Number(DoubleOfInt(-n))
  {
  }

  lemma PositiveIsNearest(m: nat, other: nat, unity: nat)
    requires 0 < m <= TWO_63 && IsOne(unity)
    ensures Nearest(DoubleOfInt(m), m, unity, other) && DoubleOfInt(m) < INFINITY_BITS
  {
    IntegerBits(m);
    if BitLength(m) <= 53 {
      ShortIsNearest(m, other, unity);
    } else {
      LongIsNearest(m, other, unity);
    }
  }

  lemma MirroredDistance(n: int, unity: nat, bits: nat)
    requires Magnitude(bits) < TWO_63
    ensures Distance(Opposite(bits), -n, unity) == Distance(bits, n, unity)
  {
    OppositeNumber(bits);
    InUnitsOpposite(n, unity);
  }

  lemma ZeroIsNearest(other: nat, unity: nat)
    requires IsOne(unity)
    ensures IsFinite(DoubleOfInt(0)) && Nearest(DoubleOfInt(0), 0, unity, other)
  {
    UnitsOfZero(0);
  }

  lemma NegativeIsNearest(n: int, other: nat, unity: nat)
    requires n < 0 && -n <= TWO_63 && !IsNaN(other) && IsOne(unity)
    ensures IsFinite(DoubleOfInt(n)) && Nearest(DoubleOfInt(n), n, unity, other)
  {
    PositiveIsNearest(-n, Opposite(other), unity);
    NegativeConversion(n);
    OppositeNumber(other);
    OppositeNumber(DoubleOfInt(n));
    MirroredDistance(n, unity, other);
    MirroredDistance(n, unity, DoubleOfInt(n));
    assert Opposite(DoubleOfInt(n)) == DoubleOfInt(-n);
  }

  /**
   The conversion of a 64-bit integer is finite and gives the nearest double; of two equally near ones it gives the one
   with an even significand.
   */
  lemma ConversionIsNearest(n: int, other: nat, unity: nat)
    requires Abs(n) <= TWO_63 && !IsNaN(other) && IsOne(unity)
    ensures IsFinite(DoubleOfInt(n)) && Nearest(DoubleOfInt(n), n, unity, other)
  {
    if n > 0 {
      PositiveIsNearest(n, other, unity);
    } else if n == 0 {
      ZeroIsNearest(other, unity);
    } else {
      NegativeIsNearest(n, other, unity);
    }
  }

  /** The conversion is exact up to 53 bits. */
  lemma ConversionIsExact(n: int, unity: nat)
    requires BitLength(Abs(n)) <= 53 && IsOne(unity)
    ensures Number(DoubleOfInt(n)) == InUnits(n, unity)
  {
    if n > 0 {
      ShortIsNearest(n, 0, unity);
    } else if n == 0 {
      UnitsOfZero(0);
    } else {
      ShortIsNearest(-n, 0, unity);
      NegativeConversion(n);
      InUnitsOpposite(n, unity);
    }
  }

  /** The conversion never reverses the order of two integers. */
  lemma ConversionIsMonotone(n: int, k: int)
    requires Abs(n) <= TWO_63 && Abs(k) <= TWO_63 && n <= k
    ensures Number(DoubleOfInt(n)) <= Number(DoubleOfInt(k))
    ensures !DoubleLt(DoubleOfInt(k), DoubleOfInt(n))
  {
    var unity: nat := 1023 * TWO_52;
    ConversionIsNearest(n, 0, unity);
    ConversionIsNearest(k, 0, unity);
    ConversionIsNearest(n, DoubleOfInt(k), unity);
    ConversionIsNearest(k, DoubleOfInt(n), unity);
    if n < k {
      OnePositive(unity);
      InUnitsGrow(n, k, unity);
      NearestKeepOrder(Number(DoubleOfInt(n)), Number(DoubleOfInt(k)), InUnits(n, unity), InUnits(k, unity));
    }
    OrderIsOfNumbers(DoubleOfInt(k), DoubleOfInt(n));
  }

  lemma NearestKeepOrder(x: int, y: int, n: int, k: int)
    requires n < k && Abs(x - n) <= Abs(y - n) && Abs(y - k) <= Abs(x - k)
    ensures x <= y
  {
  }

  lemma ConversionSign(n: int)
    requires Abs(n) <= TWO_63
    ensures n < 0 <==> DoubleOfInt(n) >= TWO_63
    ensures n < 0 ==> Number(DoubleOfInt(n)) < 0
    ensures n > 0 ==> Number(DoubleOfInt(n)) > 0
    ensures n == 0 ==> DoubleOfInt(n) == 0
  {
    if n != 0 {
      PositiveIsNearest(Abs(n), 0, 1023 * TWO_52);
      assert DoubleOfInt(Abs(n)) >= 1022 * TWO_52;
      UnitsOfZero(DoubleOfInt(Abs(n)));
      if n < 0 {
        NegativeConversion(n);
      }
    }
  }
}
