/** SQL values, their types, and the comparison of DOUBLE values given as 64-bit patterns. */
module Values {
  import opened Common

  datatype Type = IntType | BigIntType | DoubleType | BooleanType | VarcharType

  datatype Value =
    | Null
    | Int(i: int)
    | BigInt(n: int)
    | Double(bits: nat)
    | Bool(b: bool)
    | Text(s: seq<byte>)

  const TWO_52: nat := 0x10_0000_0000_0000
  const TWO_63: nat := 0x8000_0000_0000_0000
  const INFINITY_BITS: nat := 0x7FF0_0000_0000_0000

  /** The pattern without its sign bit. */
  function Magnitude(bits: nat): nat {
    if bits < TWO_63 then bits else bits - TWO_63
  }

  predicate IsNaN(bits: nat) {
    Magnitude(bits) > INFINITY_BITS
  }

  predicate IsFinite(bits: nat) {
    Magnitude(bits) < INFINITY_BITS
  }

  /** Orders the non-NaN patterns; the two zeros share a rank. */
  function Rank(bits: nat): int {
    if bits < TWO_63 then bits else -(Magnitude(bits) as int)
  }

  predicate DoubleEq(a: nat, b: nat) {
    !IsNaN(a) && !IsNaN(b) && Rank(a) == Rank(b)
  }

  predicate DoubleLt(a: nat, b: nat) {
    !IsNaN(a) && !IsNaN(b) && Rank(a) < Rank(b)
  }

  function BitLength(n: nat): (r: nat)
    ensures n > 0 ==> r > 0
  {
    if n == 0 then 0 else 1 + BitLength(n / 2)
  }

  function Product(a: nat, b: nat): nat {
    a * b
  }

  /** m as a 53-bit significand, given that its leading bit is bit `top`; ties go to even. */
  function Significand(m: nat, top: nat): nat {
    if top <= 52 then Product(m, Pow2(52 - top))
    else
      var unit := Pow2(top - 52);
      if 2 * (m % unit) > unit || (2 * (m % unit) == unit && (m / unit) % 2 == 1) then m / unit + 1 else m / unit
  }

  /** static_cast<double> of an integer: the nearest double. A carry out of the significand raises the exponent. */
  function DoubleOfInt(n: int): nat {
    if n == 0 then 0
    else
      var m: nat := if n < 0 then -n else n;
      var top: nat := BitLength(m) - 1;
      (if n < 0 then TWO_63 else 0) + (top + 1022) * TWO_52 + Significand(m, top)
  }
}
