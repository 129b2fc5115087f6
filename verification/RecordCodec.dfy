/** Rows as record payloads, in both row formats (src/storage/record_codec.cpp). */
module RecordCodec {
  import opened Common
  import opened Values
  import opened Binding
  import opened CodecBits
  import Utf8

  datatype RowFormat = V1 | V2

  datatype CodecError = InvalidArgument | ValueTooLarge | Corrupt

  const MAX_VARCHAR: nat := 1024
  const MAX_LOGICAL: nat := 4096
  const MAX_PAYLOAD: nat := 4056

  type Columns = seq<ColumnMeta>
  type Row = seq<Value>

  // ---------------------------------------------------------------- one value

  /** The value is of the alternative and machine range of the type. */
  predicate TypeMatches(t: Type, v: Value) {
    match t
    case IntType => v.Int? && -(TWO_32 as int) / 2 <= v.i < TWO_32 / 2
    case BigIntType => v.BigInt? && -(TWO_64 as int) / 2 <= v.n < TWO_64 / 2
    case DoubleType => v.Double? && v.bits < TWO_64
    case BooleanType => v.Bool?
    case VarcharType => v.Text?
  }

  function EncodeValue(v: Value): Bytes {
    match v
    case Null => []
    case Int(i) => if ToUnsigned(i, TWO_32) >= 0 then LittleEndian(4, ToUnsigned(i, TWO_32)) else []
    case BigInt(n) => if ToUnsigned(n, TWO_64) >= 0 then LittleEndian(8, ToUnsigned(n, TWO_64)) else []
    case Double(bits) => LittleEndian(8, bits)
    case Bool(b) => [if b then 1 else 0]
    case Text(s) => LittleEndian(4, |s|) + s
  }

  /** The row-size contribution of a value. */
  function Logical(v: Value): nat {
    match v
    case Null => 0
    case Int(_) => 4
    case BigInt(_) => 8
    case Double(_) => 8
    case Bool(_) => 1
    case Text(s) => |s|
  }

  datatype Field = Field(value: Value, width: nat)

  /** One value of the type at the front of the bytes. */
  function ReadValue(t: Type, b: Bytes): (r: Option<Field>)
    ensures r.Some? ==> r.value.width <= |b|
  {
    match t
    case IntType => if |b| < 4 then None else Some(Field(Int(ToSigned(FromLittleEndian(b[..4]), TWO_32)), 4))
    case BigIntType => if |b| < 8 then None else Some(Field(BigInt(ToSigned(FromLittleEndian(b[..8]), TWO_64)), 8))
    case DoubleType =>
      if |b| < 8 || !IsFinite(FromLittleEndian(b[..8])) then None else Some(Field(Double(FromLittleEndian(b[..8])), 8))
    case BooleanType => if |b| < 1 || b[0] > 1 then None else Some(Field(Bool(b[0] == 1), 1))
    case VarcharType =>
      if |b| < 4 then None
      else
        var n := FromLittleEndian(b[..4]);
        if n > MAX_VARCHAR || |b| - 4 < n ||
            !Utf8.Valid(b[4..4 + n]) then None else Some(Field(Text(b[4..4 + n]), 4 + n))
  }

  /** What the codec accepts for a non-NULL value. */
  predicate ValueOk(t: Type, v: Value) {
    TypeMatches(t, v) && (v.Double? ==> IsFinite(v.bits)) && (v.Text? ==> Utf8.Valid(v.s) && |v.s| <= MAX_VARCHAR)
  }

  lemma ReadAppended(n: nat, v: nat, rest: Bytes)
    requires v < Pow256(n)
    ensures FromLittleEndian((LittleEndian(n, v) + rest)[..n]) == v
  {
    ReadsWhatWasWritten(n, v);
    assert (LittleEndian(n, v) + rest)[..n] == LittleEndian(n, v);
  }

  /** Reading back what was written. */
  lemma ValueRoundTrip(t: Type, v: Value, rest: Bytes)
    requires ValueOk(t, v)
    ensures ReadValue(t, EncodeValue(v) + rest) == Some(Field(v, |EncodeValue(v)|))
  {
    Widths();
    match v
    case Int(i) => ReadAppended(4, ToUnsigned(i, TWO_32), rest);
    case BigInt(n) => ReadAppended(8, ToUnsigned(n, TWO_64), rest);
    case Double(bits) => ReadAppended(8, bits, rest);
    case Bool(_) =>
    case Text(s) => TextRoundTrip(s, rest);
  }

  lemma ReadText(b: Bytes, n: nat)
    requires 4 + n <= |b| && n <= MAX_VARCHAR && FromLittleEndian(b[..4]) == n && Utf8.Valid(b[4..4 + n])
    ensures ReadValue(VarcharType, b) == Some(Field(Text(b[4..4 + n]), 4 + n))
  {
  }

  /** A length prefix, the text, and more bytes. */
  lemma Prefixed(prefix: Bytes, s: Bytes, rest: Bytes)
    requires |prefix| == 4
    ensures var b := prefix + s + rest; b == prefix + (s + rest) && b[..4] == prefix && b[4..4 + |s|] == s
  {
  }

  lemma TextRoundTrip(s: Bytes, rest: Bytes)
    requires Utf8.Valid(s) && |s| <= MAX_VARCHAR
    ensures ReadValue(VarcharType, EncodeValue(Text(s)) + rest) == Some(Field(Text(s), 4 + |s|))
  {
    Widths();
    ReadsWhatWasWritten(4, |s|);
    Prefixed(LittleEndian(4, |s|), s, rest);
    ReadText(LittleEndian(4, |s|) + s + rest, |s|);
  }

  /** What was read writes back to the same bytes. */
  lemma ReadRoundTrip(t: Type, b: Bytes)
    requires ReadValue(t, b).Some?
    ensures ValueOk(t, ReadValue(t, b).value.value)
    ensures EncodeValue(ReadValue(t, b).value.value) == b[..ReadValue(t, b).value.width]
  {
    Widths();
    match t
    case IntType => WritesWhatWasRead(b[..4]);
    case BigIntType => WritesWhatWasRead(b[..8]);
    case DoubleType => WritesWhatWasRead(b[..8]);
    case BooleanType =>
    case VarcharType =>
      WritesWhatWasRead(b[..4]);
      var n := FromLittleEndian(b[..4]);
      assert b[..4] + b[4..4 + n] == b[..4 + n];
  }

  // ---------------------------------------------------------------- a row

  function Nulls(values: Row): (r: seq<bool>)
    ensures |r| == |values| && forall i :: 0 <= i < |r| ==> r[i] == values[i].Null?
  {
    seq(|values|, i requires 0 <= i < |values| => values[i].Null?)
  }

  function Fields(values: Row): Bytes {
    if values == [] then [] else EncodeValue(values[0]) + Fields(values[1..])
  }

  function LogicalTotal(values: Row): nat {
    if values == [] then 0 else Logical(values[0]) + LogicalTotal(values[1..])
  }

  function Payload(format: RowFormat, values: Row): Bytes {
    (if format.V2? then Bitmap(Nulls(values)) else []) + Fields(values)
  }

  predicate TypeSupported(format: RowFormat, t: Type) {
    t.IntType? || t.VarcharType? || format.V2?
  }

  predicate ColumnOk(format: RowFormat, c: ColumnMeta) {
    (format.V1? ==> !c.nullable) && TypeSupported(format, c.ty)
  }

  predicate SchemaOk(format: RowFormat, columns: Columns) {
    forall i :: 0 <= i < |columns| ==> ColumnOk(format, columns[i])
  }

  predicate RowOk(columns: Columns, values: Row) {
    && |values| == |columns|
    && (forall i :: 0 <= i < |columns| ==>
        if values[i].Null? then columns[i].nullable else ValueOk(columns[i].ty, values[i]))
  }

  /** Exactly the rows the codec accepts. */
  predicate Encodable(format: RowFormat, columns: Columns, values: Row) {
    SchemaOk(format, columns) && RowOk(columns, values) && LogicalTotal(values) <= MAX_LOGICAL &&
        |Payload(format, values)| <= MAX_PAYLOAD
  }

  // ---------------------------------------------------------------- decoding

  function Prepend(v: Value, r: Option<Row>): Option<Row> {
    if r.None? then None else Some([v] + r.value)
  }

  /** The values of the columns, given which are NULL; the bytes must be used up. */
  function DecodeFields(columns: Columns, nulls: seq<bool>, b: Bytes): Option<Row>
    requires |nulls| == |columns|
    decreases |columns|
  {
    if columns == [] then (if b == [] then Some([]) else None)
    else if nulls[0] then Prepend(Null, DecodeFields(columns[1..], nulls[1..], b))
    else
      match ReadValue(columns[0].ty, b)
      case None => None
      case Some(f) => Prepend(f.value, DecodeFields(columns[1..], nulls[1..], b[f.width..]))
  }

  /** The NULL flags of the payload. */
  function NullFlags(format: RowFormat, n: nat, payload: Bytes): (r: seq<bool>)
    requires format.V2? ==> BitmapSize(n) <= |payload|
    ensures |r| == n && forall i :: 0 <= i < n ==> r[i] == (format.V2? && NullAt(payload, i))
  {
    seq(n, i requires 0 <= i < n => format.V2? && NullAt(payload, i))
  }

  predicate BitmapOk(format: RowFormat, columns: Columns, payload: Bytes) {
    format.V2? ==>
      && BitmapSize(|columns|) <= |payload| && SpareBitsClear(payload, |columns|)
      && (forall i :: 0 <= i < |columns| ==> NullFlags(format, |columns|, payload)[i] ==> columns[i].nullable)
  }

  function HeaderSize(format: RowFormat, n: nat): nat {
    if format.V2? then BitmapSize(n) else 0
  }

  /** RecordCodec::decode. */
  function Decode(format: RowFormat, columns: Columns, payload: Bytes): Result<Row, CodecError> {
    if !SchemaOk(format, columns) then Err(InvalidArgument)
    else if |payload| > MAX_PAYLOAD || !BitmapOk(format, columns, payload) then Err(Corrupt)
    else
      match DecodeFields(columns, NullFlags(format, |columns|, payload), payload[HeaderSize(format, |columns|)..])
      case None => Err(Corrupt)
      case Some(values) => if LogicalTotal(values) > MAX_LOGICAL then Err(Corrupt) else Ok(values)
  }

  lemma {:induction false} FieldsRoundTrip(columns: Columns, values: Row)
    requires RowOk(columns, values)
    ensures DecodeFields(columns, Nulls(values), Fields(values)) == Some(values)
    decreases |columns|
  {
    if columns != [] {
      FieldsRoundTrip(columns[1..], values[1..]);
      assert Nulls(values)[1..] == Nulls(values[1..]);
      assert values == [values[0]] + values[1..];
      if !values[0].Null? {
        ValueRoundTrip(columns[0].ty, values[0], Fields(values[1..]));
        assert Fields(values)[|EncodeValue(values[0])|..] == Fields(values[1..]);
      } else {
        assert Fields(values) == Fields(values[1..]);
      }
    }
  }

  /** The row encodes to the flags and the bytes. */
  ghost predicate Spells(columns: Columns, values: Row, nulls: seq<bool>, b: Bytes) {
    RowOk(columns, values) && Nulls(values) == nulls && Fields(values) == b
  }

  lemma SpellsStep(columns: Columns, v: Value, tail: Row, nulls: seq<bool>, b: Bytes)
    requires columns != [] && |nulls| == |columns| && nulls[0] == v.Null?
    requires if v.Null? then columns[0].nullable else ValueOk(columns[0].ty, v)
    requires Spells(columns[1..], tail, nulls[1..], b)
    ensures Spells(columns, [v] + tail, nulls, EncodeValue(v) + b)
  {
    var values := [v] + tail;
    assert values[1..] == tail;
    RowOkStep(columns, values);
    assert nulls == [nulls[0]] + nulls[1..];
    assert Nulls(values) == [v.Null?] + Nulls(tail);
  }

  /** The first column's value and width, and what remains to decode. */
  lemma DecodeSplit(columns: Columns, nulls: seq<bool>, b: Bytes) returns (v: Value, w: nat)
    requires |nulls| == |columns| && columns != [] && DecodeFields(columns, nulls, b).Some?
    ensures w <= |b| && v.Null? == nulls[0] && EncodeValue(v) == b[..w] && (nulls[0] || ValueOk(columns[0].ty, v))
    ensures var rest := DecodeFields(columns[1..], nulls[1..], b[w..]);
            rest.Some? && DecodeFields(columns, nulls, b).value == [v] + rest.value
  {
    if nulls[0] {
      v, w := Null, 0;
      assert b[0..] == b;
    } else {
      ReadRoundTrip(columns[0].ty, b);
      var f := ReadValue(columns[0].ty, b).value;
      v, w := f.value, f.width;
    }
  }

  lemma {:induction false} FieldsReadBack(columns: Columns, nulls: seq<bool>, b: Bytes)
    requires |nulls| == |columns| && DecodeFields(columns, nulls, b).Some?
    requires forall i :: 0 <= i < |columns| && nulls[i] ==> columns[i].nullable
    ensures Spells(columns, DecodeFields(columns, nulls, b).value, nulls, b)
    decreases |columns|
  {
    if columns != [] {
      var v, w := DecodeSplit(columns, nulls, b);
      FieldsReadBack(columns[1..], nulls[1..], b[w..]);
      SpellsStep(columns, v, DecodeFields(columns[1..], nulls[1..], b[w..]).value, nulls, b[w..]);
      assert b == b[..w] + b[w..];
    }
  }

  lemma RowOkStep(columns: Columns, values: Row)
    requires columns != [] && values != [] && RowOk(columns[1..], values[1..])
    requires if values[0].Null? then columns[0].nullable else ValueOk(columns[0].ty, values[0])
    ensures RowOk(columns, values)
  {
    forall i | 0 <= i < |columns|
      ensures if values[i].Null? then columns[i].nullable else ValueOk(columns[i].ty, values[i]) {
      if i > 0 {
        assert columns[i] == columns[1..][i - 1] && values[i] == values[1..][i - 1];
      }
    }
  }

  lemma NoNullsInV1(columns: Columns, values: Row)
    requires SchemaOk(V1, columns) && RowOk(columns, values)
    ensures forall i :: 0 <= i < |values| ==> !values[i].Null?
  {
    forall i | 0 <= i < |values| ensures !values[i].Null? {
      assert ColumnOk(V1, columns[i]);
    }
  }

  lemma PayloadFlags(format: RowFormat, columns: Columns, values: Row)
    requires SchemaOk(format, columns) && RowOk(columns, values)
    ensures BitmapOk(format, columns, Payload(format, values))
    ensures NullFlags(format, |columns|, Payload(format, values)) == Nulls(values)
  {
    var payload := Payload(format, values);
    if format.V2? {
      forall i | 0 <= i < |columns| ensures NullAt(payload, i) == values[i].Null? {
        BitmapHolds(Nulls(values), Fields(values), i);
      }
      BitmapSparesClear(Nulls(values), Fields(values));
    } else {
      NoNullsInV1(columns, values);
    }
  }

  /** decode undoes encode: every accepted row comes back. */
  lemma DecodeUndoesEncode(format: RowFormat, columns: Columns, values: Row)
    requires Encodable(format, columns, values)
    ensures Decode(format, columns, Payload(format, values)) == Ok(values)
  {
    PayloadFlags(format, columns, values);
    FieldsRoundTrip(columns, values);
    assert Payload(format, values)[HeaderSize(format, |columns|)..] == Fields(values);
  }

  /** encode undoes decode: every accepted payload is the encoding of its row. */
  lemma EncodeUndoesDecode(format: RowFormat, columns: Columns, payload: Bytes)
    requires Decode(format, columns, payload).Ok?
    ensures Encodable(format, columns, Decode(format, columns, payload).value)
    ensures Payload(format, Decode(format, columns, payload).value) == payload
  {
    var n, nulls := |columns|, NullFlags(format, |columns|, payload);
    var b := payload[HeaderSize(format, n)..];
    FieldsReadBack(columns, nulls, b);
    if format.V2? {
      BitmapReadBack(payload, nulls);
      assert payload == payload[..BitmapSize(n)] + b;
    } else {
      assert payload == [] + b;
    }
  }

  // ---------------------------------------------------------------- measuring

  /** add_with_limit: once past the limit, a sum stays past it. */
  function AddWithLimit(current: nat, amount: nat, limit: nat): nat {
    if current > limit || amount > limit - current then limit + 1 else current + amount
  }

  function Saturate(n: nat, limit: nat): nat {
    if n <= limit then n else limit + 1
  }

  /** The first complaint about a value, in the order of the checks. */
  function ValueFault(format: RowFormat, c: ColumnMeta, v: Value): (r: Option<CodecError>)
    ensures r.None? <==> ColumnOk(format, c) && if v.Null? then c.nullable else ValueOk(c.ty, v)
  {
    if !ColumnOk(format, c) then Some(InvalidArgument)
    else if v.Null? then (if c.nullable then None else Some(InvalidArgument))
    else if !TypeMatches(c.ty, v) || (v.Double? && !IsFinite(v.bits)) ||
        (v.Text? && !Utf8.Valid(v.s)) then Some(InvalidArgument)
    else if v.Text? && |v.s| > MAX_VARCHAR then Some(ValueTooLarge)
    else None
  }

  function FirstFault(format: RowFormat, columns: Columns, values: Row): (r: Option<CodecError>)
    requires |columns| == |values|
    ensures r.None? <==> SchemaOk(format, columns) && RowOk(columns, values)
    decreases |columns|
  {
    if columns == [] then None
    else
      var n := |columns| - 1;
      match FirstFault(format, columns[..n], values[..n])
      case Some(e) => Some(e)
      case None => ValueFault(format, columns[n], values[n])
  }

  lemma {:induction false} FaultStays(format: RowFormat, columns: Columns, values: Row, i: nat)
    requires |columns| == |values| && i <= |columns| && FirstFault(format, columns[..i], values[..i]).Some?
    ensures FirstFault(format, columns, values) == FirstFault(format, columns[..i], values[..i])
    decreases |columns|
  {
    var n := |columns| - 1;
    if i <= n {
      assert columns[..n][..i] == columns[..i] && values[..n][..i] == values[..i];
      FaultStays(format, columns[..n], values[..n], i);
    } else {
      assert columns[..i] == columns && values[..i] == values;
    }
  }

  /** What encoding reports: the exact size, or the first fault, or that a sum exceeds its limit. */
  function Measured(format: RowFormat, columns: Columns, values: Row): (r: Result<nat, CodecError>)
    ensures r.Ok? <==> Encodable(format, columns, values)
    ensures r.Ok? ==> r.value == |Payload(format, values)|
  {
    if |values| != |columns| then Err(InvalidArgument)
    else
      match FirstFault(format, columns, values)
      case Some(e) => Err(e)
      case None =>
        if LogicalTotal(values) > MAX_LOGICAL || |Payload(format, values)| > MAX_PAYLOAD then Err(ValueTooLarge)
        else Ok(|Payload(format, values)|)
  }

  lemma {:induction false} TotalsAppend(values: Row, v: Value)
    ensures LogicalTotal(values + [v]) == LogicalTotal(values) + Logical(v)
    ensures Fields(values + [v]) == Fields(values) + EncodeValue(v)
  {
    if values == [] {
      assert [] + [v] == [v] && [v][1..] == [];
    } else {
      assert (values + [v])[1..] == values[1..] + [v];
      TotalsAppend(values[1..], v);
    }
  }

  function Width(t: Type): nat {
    match t
    case IntType => 4
    case BigIntType => 8
    case DoubleType => 8
    case BooleanType => 1
    case VarcharType => 0
  }

  lemma ValueWidth(t: Type, v: Value)
    requires ValueOk(t, v)
    ensures |EncodeValue(v)| == if v.Text? then 4 + |v.s| else Width(t)
    ensures Logical(v) == if v.Text? then |v.s| else Width(t)
  {
  }

  /** The sums after one more value. */
  method AddValue(t: Type, v: Value, logical: nat, encoded: nat) returns (logical': nat, encoded': nat)
    requires v.Null? || ValueOk(t, v)
    ensures forall a: nat :: logical == Saturate(a, MAX_LOGICAL) ==> logical' == Saturate(a + Logical(v), MAX_LOGICAL)
    ensures forall a: nat :: Saturate(encoded, MAX_PAYLOAD) == Saturate(a, MAX_PAYLOAD) ==>
      Saturate(encoded', MAX_PAYLOAD) == Saturate(a + |EncodeValue(v)|, MAX_PAYLOAD)
  {
    if v.Null? {
      return logical, encoded;
    }
    ValueWidth(t, v);
    var amount := if v.Text? then |v.s| else Width(t);
    logical' := AddWithLimit(logical, amount, MAX_LOGICAL);
    encoded' := AddWithLimit(encoded, if v.Text? then 4 + amount else amount, MAX_PAYLOAD);
  }

  /** The saturated sums over the first i values. */
  ghost predicate Sums(values: Row, i: nat, header: nat, logical: nat, encoded: nat)
    requires i <= |values|
  {
    && logical == Saturate(LogicalTotal(values[..i]), MAX_LOGICAL)
    && Saturate(encoded, MAX_PAYLOAD) == Saturate(header + |Fields(values[..i])|, MAX_PAYLOAD)
  }

  lemma PayloadSize(format: RowFormat, values: Row)
    ensures |Payload(format, values)| == HeaderSize(format, |values|) + |Fields(values)|
  {
  }

  lemma PrefixTotals(values: Row, i: nat)
    requires i < |values|
    ensures LogicalTotal(values[..i + 1]) == LogicalTotal(values[..i]) + Logical(values[i])
    ensures |Fields(values[..i + 1])| == |Fields(values[..i])| + |EncodeValue(values[i])|
  {
    assert values[..i + 1] == values[..i] + [values[i]];
    TotalsAppend(values[..i], values[i]);
  }

  lemma FaultPrefix(format: RowFormat, columns: Columns, values: Row, i: nat)
    requires |columns| == |values| && i < |columns| && FirstFault(format, columns[..i], values[..i]).None?
    ensures FirstFault(format, columns[..i + 1], values[..i + 1]) == ValueFault(format, columns[i], values[i])
  {
    assert columns[..i + 1][..i] == columns[..i] && values[..i + 1][..i] == values[..i];
  }

  /** The loop of measure, with its saturating sums. */
  method Measure(format: RowFormat, columns: Columns, values: Row) returns (r: Result<nat, CodecError>)
    ensures r == Measured(format, columns, values)
  {
    if |values| != |columns| {
      return Err(InvalidArgument);
    }
    var header := HeaderSize(format, |columns|);
    var logical: nat, encoded: nat := 0, header;
    var i := 0;
    while i < |values|
      invariant 0 <= i <= |values|
      invariant FirstFault(format, columns[..i], values[..i]).None?
      invariant Sums(values, i, header, logical, encoded)
    {
      FaultPrefix(format, columns, values, i);
      var fault := CheckValue(format, columns[i], values[i]);
      if fault.Some? {
        FaultStays(format, columns, values, i + 1);
        return Err(fault.value);
      }
      PrefixTotals(values, i);
      logical, encoded := AddValue(columns[i].ty, values[i], logical, encoded);
      i := i + 1;
    }
    assert columns[..i] == columns && values[..i] == values;
    PayloadSize(format, values);
    if logical > MAX_LOGICAL || encoded > MAX_PAYLOAD {
      return Err(ValueTooLarge);
    }
    r := Ok(encoded);
  }

  method CheckValue(format: RowFormat, c: ColumnMeta, v: Value) returns (r: Option<CodecError>)
    ensures r == ValueFault(format, c, v)
  {
    if (format.V1? && c.nullable) || !TypeSupported(format, c.ty) {
      return Some(InvalidArgument);
    }
    if v.Null? {
      return if c.nullable then None else Some(InvalidArgument);
    }
    if !TypeMatches(c.ty, v) || (v.Double? && !IsFinite(v.bits)) {
      return Some(InvalidArgument);
    }
    if v.Text? {
      Utf8.ValidIffWellFormed(v.s);
      var valid := Utf8.IsValidUtf8(v.s);
      if !valid {
        return Some(InvalidArgument);
      }
      if |v.s| > MAX_VARCHAR {
        return Some(ValueTooLarge);
      }
    }
    return None;
  }
}
