/**
 The stored formats, byte by byte: encoded rows, slotted pages, page-file headers and record ids. A file written by the
 original is read by the model, and the other way round, because every number has its place and its byte order.
 */
module Layouts {
  import opened Common
  import opened Values
  import opened Binding
  import opened CodecBits
  import opened RecordCodec

  // ---------------------------------------------------------------- integers and bits

  /** Byte k of a stored integer has the weight 256^k: the least significant byte comes first. */
  lemma {:induction false} IntegerByte(n: nat, v: nat, k: nat)
    requires k < n
    ensures LittleEndian(n, v)[k] as nat == v / Pow256(k) % 256
    decreases n
  {
    if k > 0 {
      IntegerByte(n - 1, v / 256, k - 1);
      DivideTwice(v, 256, Pow256(k - 1));
      assert LittleEndian(n, v)[k] == LittleEndian(n - 1, v / 256)[k - 1];
    } else {
      assert Pow256(0) == 1;
    }
  }

  lemma DivideTwice(v: nat, a: nat, b: nat)
    requires a > 0 && b > 0
    ensures a * b > 0 && v / a / b == v / (a * b)
  {
    var q, r := v / a, v % a;
    var p, s := q / b, q % b;
    assert q == p * b + s;
    assert v == q * a + r;
    RegroupQuotient(v, a, b, p, s, r);
  }

  lemma RegroupQuotient(v: nat, a: nat, b: nat, p: nat, s: nat, r: nat)
    requires a > 0 && b > 0 && s < b && r < a && v == (p * b + s) * a + r
    ensures a * b > 0 && v / (a * b) == p
  {
    var rest := s * a + r;
    assert (p * b + s) * a == p * (a * b) + s * a;
    assert s * a <= (b - 1) * a;
    assert (b - 1) * a + a == a * b;
    QuotientIs(v, a * b, p, rest);
  }

  lemma Distribute(a: int, b: int, d: nat)
    ensures (a + b) * d == a * d + b * d
  {
  }

  lemma MultiplesApart(a: int, b: int, d: nat)
    ensures a < b ==> a * d + d <= b * d
  {
    if a < b {
      Distribute(a + 1, b - a - 1, d);
      Distribute(a, 1, d);
    }
  }

  lemma QuotientIs(v: int, d: nat, p: int, rest: nat)
    requires d > 0 && rest < d && v == p * d + rest
    ensures v / d == p
  {
    var q := v / d;
    assert v == q * d + v % d;
    MultiplesApart(q, p, d);
    MultiplesApart(p, q, d);
  }

  /** Bit j of a number has the weight 2^j. */
  lemma {:induction false} BitIsDigit(v: nat, j: nat)
    ensures Bit(v, j) <==> v / Pow2(j) % 2 == 1
    decreases j
  {
    if j > 0 {
      BitIsDigit(v / 2, j - 1);
      DivideTwice(v, 2, Pow2(j - 1));
    } else {
      assert Pow2(0) == 1;
    }
  }

  // ---------------------------------------------------------------- rows

  /** The bytes a value takes; a NULL takes none. */
  function StoredSize(v: Value): nat {
    match v
    case Null => 0
    case Int(_) => 4
    case BigInt(_) => 8
    case Double(_) => 8
    case Bool(_) => 1
    case Text(s) => 4 + |s|
  }

  /** The bytes of the values before the i-th. */
  function SizeBefore(values: Row, i: nat): nat
    requires i <= |values|
  {
    if i == 0 then 0 else SizeBefore(values, i - 1) + StoredSize(values[i - 1])
  }

  /** Where the i-th value stands: behind the bitmap of a V2 row, one bit per column, and the values before it. */
  function FieldStart(format: RowFormat, values: Row, i: nat): nat
    requires i <= |values|
  {
    (if format.V2? then (|values| + 7) / 8 else 0) + SizeBefore(values, i)
  }

  /** The integer stands at `at`, least significant byte first, a negative one in two's complement. */
  ghost predicate IntegerAt(p: Bytes, at: nat, width: nat, n: int) {
    at + width <= |p| && forall k :: 0 <= k < width ==> p[at + k] as nat == n / Pow256(k) % 256
  }

  /** The value stands at `at`. */
  ghost predicate ValueAt(p: Bytes, at: nat, v: Value) {
    match v
    case Null => true
    case Int(n) => IntegerAt(p, at, 4, n)
    case BigInt(n) => IntegerAt(p, at, 8, n)
    case Double(bits) => IntegerAt(p, at, 8, bits)
    case Bool(b) => at < |p| && p[at] == if b then 1 else 0
    case Text(s) => IntegerAt(p, at, 4, |s|) && at + 4 + |s| <= |p| && p[at + 4..at + 4 + |s|] == s
  }

  lemma ShiftedByte(n: int, d: nat, m: nat)
    requires d > 0
    ensures (n + (256 * m) * d) / d % 256 == n / d % 256
  {
    var q, r := n / d, n % d;
    assert n == q * d + r;
    Distribute(q, 256 * m, d);
    QuotientIs(n + (256 * m) * d, d, q + 256 * m, r);
  }

  lemma {:induction false} PowersMultiply(a: nat, b: nat)
    ensures Pow256(a + b) == Pow256(a) * Pow256(b)
  {
    if a > 0 {
      PowersMultiply(a - 1, b);
      assert Pow256(a + b) == 256 * (Pow256(a - 1) * Pow256(b)) == (256 * Pow256(a - 1)) * Pow256(b);
    }
  }

  lemma PowerSplits(width: nat, k: nat)
    requires k < width
    ensures Pow256(width) == (256 * Pow256(width - k - 1)) * Pow256(k)
  {
    PowersMultiply(width - k, k);
  }

  /** Two's complement changes no byte of the number's digits. */
  lemma SignedByte(n: int, width: nat, k: nat)
    requires k < width && 0 <= ToUnsigned(n, Pow256(width))
    ensures ToUnsigned(n, Pow256(width)) / Pow256(k) % 256 == n / Pow256(k) % 256
  {
    PowerSplits(width, k);
    ShiftedByte(n, Pow256(k), Pow256(width - k - 1));
  }

  lemma SignedStands(n: int, width: nat, rest: Bytes)
    requires 0 <= ToUnsigned(n, Pow256(width))
    ensures IntegerAt(LittleEndian(width, ToUnsigned(n, Pow256(width))) + rest, 0, width, n)
  {
    forall k | 0 <= k < width
      ensures LittleEndian(width, ToUnsigned(n, Pow256(width)))[k] as nat == n / Pow256(k) % 256
    {
      IntegerByte(width, ToUnsigned(n, Pow256(width)), k);
      SignedByte(n, width, k);
    }
  }

  lemma ValueStands(t: Type, v: Value, rest: Bytes)
    requires TypeMatches(t, v)
    ensures |EncodeValue(v)| == StoredSize(v) && ValueAt(EncodeValue(v) + rest, 0, v)
  {
    Widths();
    match v
    case Int(n) => SignedStands(n, 4, rest);
    case BigInt(n) => SignedStands(n, 8, rest);
    case Double(bits) => SignedStands(bits, 8, rest);
    case Bool(_) =>
    case Text(s) =>
      SignedStands(|s|, 4, s + rest);
      assert EncodeValue(v) + rest == LittleEndian(4, |s|) + (s + rest);
  }

  lemma ValueShifts(before: Bytes, p: Bytes, v: Value)
    requires ValueAt(p, 0, v)
    ensures ValueAt(before + p, |before|, v)
  {
    if v.Text? {
      assert (before + p)[|before| + 4..|before| + 4 + |v.s|] == p[4..4 + |v.s|];
    }
  }

  lemma MovedLeft(a: Bytes, b: Bytes, c: Bytes)
    ensures a + (b + c) == (a + b) + c
  {
  }

  lemma {:induction false} FieldsSplit(columns: Columns, values: Row, i: nat) returns (before: Bytes, rest: Bytes)
    requires RowOk(columns, values) && i < |values|
    ensures Fields(values) == before + (EncodeValue(values[i]) + rest) && |before| == SizeBefore(values, i)
    ensures values[i].Null? || TypeMatches(columns[i].ty, values[i])
    decreases |values|
  {
    if i == 0 {
      before, rest := [], Fields(values[1..]);
    } else {
      RowOkTail(columns, values);
      before, rest := FieldsSplit(columns[1..], values[1..], i - 1);
      ValueWidthIs(columns[0].ty, values[0]);
      SizeBeforeTail(values, i);
      var v := EncodeValue(values[0]);
      MovedLeft(v, before, EncodeValue(values[i]) + rest);
      before := v + before;
    }
  }

  lemma RowOkTail(columns: Columns, values: Row)
    requires RowOk(columns, values) && values != []
    ensures RowOk(columns[1..], values[1..])
    ensures values[0].Null? || TypeMatches(columns[0].ty, values[0])
  {
  }

  lemma ValueWidthIs(t: Type, v: Value)
    requires v.Null? || TypeMatches(t, v)
    ensures |EncodeValue(v)| == StoredSize(v)
  {
    if !v.Null? {
      ValueStands(t, v, []);
    }
  }

  lemma {:induction false} SizeBeforeTail(values: Row, i: nat)
    requires 0 < i <= |values|
    ensures SizeBefore(values, i) == StoredSize(values[0]) + SizeBefore(values[1..], i - 1)
    decreases i
  {
    if i > 1 {
      SizeBeforeTail(values, i - 1);
    } else {
      assert SizeBefore(values, 1) == SizeBefore(values, 0) + StoredSize(values[0]);
    }
  }

  function Header(format: RowFormat, values: Row): (r: Bytes)
    ensures |r| == if format.V2? then (|values| + 7) / 8 else 0
  {
    if format.V2? then Bitmap(Nulls(values)) else []
  }

  lemma Regrouped(header: Bytes, before: Bytes, value: Bytes, rest: Bytes)
    ensures header + (before + (value + rest)) == (header + before) + (value + rest)
  {
  }

  lemma PayloadSplit(format: RowFormat, columns: Columns, values: Row, i: nat) returns (before: Bytes, rest: Bytes)
    requires RowOk(columns, values) && i < |values|
    ensures Payload(format, values) == before + (EncodeValue(values[i]) + rest)
    ensures |before| == FieldStart(format, values, i)
    ensures values[i].Null? || TypeMatches(columns[i].ty, values[i])
  {
    before, rest := FieldsSplit(columns, values, i);
    var header := Header(format, values);
    assert Payload(format, values) == header + Fields(values);
    Regrouped(header, before, EncodeValue(values[i]), rest);
    before := header + before;
  }

  /** Every value of an accepted row stands in its place. */
  lemma RowLayout(format: RowFormat, columns: Columns, values: Row, i: nat)
    requires Encodable(format, columns, values) && i < |values|
    ensures ValueAt(Payload(format, values), FieldStart(format, values, i), values[i])
  {
    var before, rest := PayloadSplit(format, columns, values, i);
    if !values[i].Null? {
      ValueStands(columns[i].ty, values[i], rest);
      ValueShifts(before, EncodeValue(values[i]) + rest, values[i]);
    }
  }

  lemma {:induction false} FieldsSize(columns: Columns, values: Row)
    requires RowOk(columns, values)
    ensures |Fields(values)| == SizeBefore(values, |values|)
    decreases |values|
  {
    if values != [] {
      RowOkTail(columns, values);
      FieldsSize(columns[1..], values[1..]);
      ValueWidthIs(columns[0].ty, values[0]);
      SizeBeforeTail(values, |values|);
      assert |Fields(values)| == |EncodeValue(values[0])| + |Fields(values[1..])|;
    }
  }

  /** A row ends with its last value. */
  lemma RowEnds(format: RowFormat, columns: Columns, values: Row)
    requires Encodable(format, columns, values)
    ensures |Payload(format, values)| == FieldStart(format, values, |values|)
  {
    FieldsSize(columns, values);
  }

  lemma BitmapDigit(nulls: seq<bool>, rest: Bytes, k: nat, j: nat)
    requires k < BitmapSize(|nulls|) && j < 8
    ensures (Bitmap(nulls) + rest)[k] as nat / Pow2(j) % 2 == if 8 * k + j < |nulls| && nulls[8 * k + j] then 1 else 0
  {
    Pow2Of8();
    var v := Pack(Flags(nulls, k));
    assert (Bitmap(nulls) + rest)[k] as nat == v;
    PackedBit(Flags(nulls, k), j);
    BitIsDigit(v, j);
    Halved(v / Pow2(j));
  }

  lemma Halved(n: nat)
    ensures n % 2 == 0 || n % 2 == 1
  {
  }

  /** Bit i of a V2 row is bit i mod 8 of byte i div 8; it is set exactly when value i is NULL, and spare bits are 0. */
  lemma BitmapLayout(columns: Columns, values: Row, i: nat)
    requires Encodable(V2, columns, values) && i / 8 < (|values| + 7) / 8
    ensures i / 8 < |Payload(V2, values)|
    ensures Payload(V2, values)[i / 8] as nat / Pow2(i % 8) % 2 == if i < |values| && values[i].Null? then 1 else 0
  {
    BitmapDigit(Nulls(values), Fields(values), i / 8, i % 8);
  }
}
