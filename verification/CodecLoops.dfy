/** The encode and decode loops of the record codec, against the payload of a row (src/storage/record_codec.cpp). */
module CodecLoops {
  import opened Common
  import opened Values
  import opened CodecBits
  import opened RecordCodec
  import Utf8

  // ---------------------------------------------------------------- encode

  /** The NULL flags set after i columns. */
  function NullsUpTo(values: Row, i: nat): (r: seq<bool>)
    requires i <= |values|
    ensures |r| == |values| && forall j :: 0 <= j < |r| ==> r[j] == (j < i && values[j].Null?)
  {
    seq(|values|, j requires 0 <= j < |values| => j < i && values[j].Null?)
  }

  /** The output after i columns: the bitmap so far, then the fields so far. */
  function Partial(format: RowFormat, values: Row, i: nat): Bytes
    requires i <= |values|
  {
    Front(format, values, i) + Fields(values[..i])
  }

  function Front(format: RowFormat, values: Row, i: nat): Bytes
    requires i <= |values|
  {
    if format.V2? then Bitmap(NullsUpTo(values, i)) else []
  }

  lemma FrontSame(format: RowFormat, values: Row, i: nat)
    requires i < |values| && !values[i].Null?
    ensures Front(format, values, i + 1) == Front(format, values, i)
  {
    assert NullsUpTo(values, i + 1) == NullsUpTo(values, i);
  }

  lemma NoFlags(n: nat, nulls: seq<bool>, k: nat)
    requires |nulls| == n && forall i :: 0 <= i < n ==> !nulls[i]
    ensures BitmapByte(nulls, k) == 0
  {
    var flags := Flags(nulls, k);
    Pow2Of8();
    assert forall j :: 0 <= j < 8 ==> !flags[j];
    PackNone(flags);
  }

  lemma {:induction false} PackNone(flags: seq<bool>)
    requires forall j :: 0 <= j < |flags| ==> !flags[j]
    ensures Pack(flags) == 0
  {
    if flags != [] {
      PackNone(flags[1..]);
    }
  }

  lemma StartsZero(format: RowFormat, values: Row)
    ensures Partial(format, values, 0) == seq(HeaderSize(format, |values|), _ => 0 as byte)
  {
    assert values[..0] == [];
    if format.V2? {
      var nulls := NullsUpTo(values, 0);
      forall k | 0 <= k < BitmapSize(|values|) ensures Bitmap(nulls)[k] == 0 {
        NoFlags(|values|, nulls, k);
      }
    }
  }

  lemma FieldsGrow(values: Row, i: nat)
    requires i < |values|
    ensures Fields(values[..i + 1]) == Fields(values[..i]) + EncodeValue(values[i])
  {
    assert values[..i + 1] == values[..i] + [values[i]];
    TotalsAppend(values[..i], values[i]);
  }

  lemma Regroup(a: Bytes, b: Bytes, c: Bytes)
    ensures a + (b + c) == (a + b) + c
  {
  }

  lemma PartialValue(format: RowFormat, values: Row, i: nat)
    requires i < |values| && !values[i].Null?
    ensures Partial(format, values, i + 1) == Partial(format, values, i) + EncodeValue(values[i])
  {
    FieldsGrow(values, i);
    FrontSame(format, values, i);
    Regroup(Front(format, values, i), Fields(values[..i]), EncodeValue(values[i]));
  }

  lemma PartialNull(values: Row, i: nat)
    requires i < |values| && values[i].Null?
    ensures var out := Partial(V2, values, i);
            && i / 8 < |out| && SetBit(out[i / 8] as nat, i % 8) < 256
            && Partial(V2, values, i + 1) == out[i / 8 := SetBit(out[i / 8] as nat, i % 8) as byte]
  {
    var before := NullsUpTo(values, i);
    assert NullsUpTo(values, i + 1) == before[i := true];
    BitmapSet(before, i);
    NullAddsNothing(values, i);
    UpdateFront(Bitmap(before), Fields(values[..i]), i / 8, SetBit(Bitmap(before)[i / 8] as nat, i % 8) as byte);
  }

  lemma NullAddsNothing(values: Row, i: nat)
    requires i < |values| && values[i].Null?
    ensures Fields(values[..i + 1]) == Fields(values[..i])
  {
    assert values[..i + 1] == values[..i] + [values[i]];
    TotalsAppend(values[..i], values[i]);
  }

  lemma UpdateFront(a: Bytes, b: Bytes, k: nat, v: byte)
    requires k < |a|
    ensures (a + b)[k := v] == a[k := v] + b && (a + b)[k] == a[k]
  {
  }

  lemma FinalPartial(format: RowFormat, values: Row)
    ensures Partial(format, values, |values|) == Payload(format, values)
  {
    assert values[..|values|] == values;
    assert NullsUpTo(values, |values|) == Nulls(values);
  }

  lemma NullOnlyInV2(format: RowFormat, columns: Columns, values: Row, i: nat)
    requires Encodable(format, columns, values) && i < |values| && values[i].Null?
    ensures format.V2?
  {
    assert ColumnOk(format, columns[i]);
  }

  /** RecordCodec::encode. */
  method Encode(format: RowFormat, columns: Columns, values: Row) returns (r: Result<Bytes, CodecError>)
    ensures r.Ok? <==> Encodable(format, columns, values)
    ensures r.Ok? ==> r.value == Payload(format, values)
    ensures r.Err? ==> Measured(format, columns, values) == Err(r.error)
  {
    var measured := Measure(format, columns, values);
    if measured.Err? {
      return Err(measured.error);
    }
    StartsZero(format, values);
    var output: Bytes := seq(HeaderSize(format, |values|), _ => 0 as byte);
    var i := 0;
    while i < |values|
      invariant 0 <= i <= |values|
      invariant output == Partial(format, values, i)
    {
      if values[i].Null? {
        NullOnlyInV2(format, columns, values, i);
        PartialNull(values, i);
        output := output[i / 8 := SetBit(output[i / 8] as nat, i % 8) as byte];
      } else {
        PartialValue(format, values, i);
        output := output + EncodeValue(values[i]);
      }
      i := i + 1;
    }
    FinalPartial(format, values);
    r := Ok(output);
  }

  // ---------------------------------------------------------------- decode

  method CheckColumns(format: RowFormat, columns: Columns) returns (ok: bool)
    ensures ok == SchemaOk(format, columns)
  {
    for i := 0 to |columns|
      invariant forall j :: 0 <= j < i ==> ColumnOk(format, columns[j])
    {
      if (format.V1? && columns[i].nullable) || !TypeSupported(format, columns[i].ty) {
        return false;
      }
    }
    return true;
  }

  method CheckBitmap(columns: Columns, payload: Bytes) returns (ok: bool)
    ensures ok == BitmapOk(V2, columns, payload)
  {
    var n := |columns|;
    if |payload| < BitmapSize(n) {
      return false;
    }
    for i := 0 to n
      invariant forall j :: 0 <= j < i ==> NullFlags(V2, n, payload)[j] ==> columns[j].nullable
    {
      if NullAt(payload, i) && !columns[i].nullable {
        assert NullFlags(V2, n, payload)[i];
        return false;
      }
    }
    return SpareBitsClear(payload, n);
  }

  function After(done: Row, rest: Option<Row>): Option<Row> {
    if rest.None? then None else Some(done + rest.value)
  }

  lemma AfterStep(done: Row, v: Value, rest: Option<Row>)
    ensures After(done, Prepend(v, rest)) == After(done + [v], rest)
  {
    assert rest.Some? ==> done + ([v] + rest.value) == done + [v] + rest.value;
  }

  lemma {:induction false} TotalConcat(a: Row, b: Row)
    ensures LogicalTotal(a + b) == LogicalTotal(a) + LogicalTotal(b)
  {
    if a == [] {
      assert a + b == b;
    } else {
      assert (a + b)[1..] == a[1..] + b;
      TotalConcat(a[1..], b);
    }
  }

  lemma OneMore(values: Row, v: Value)
    ensures LogicalTotal(values + [v]) == LogicalTotal(values) + Logical(v)
  {
    TotalsAppend(values, v);
  }

  /** What decode reports once the fields are read or not. */
  function Finish(values: Option<Row>): Result<Row, CodecError> {
    if values.None? || LogicalTotal(values.value) > MAX_LOGICAL then Err(Corrupt) else Ok(values.value)
  }

  lemma TooLong(done: Row, rest: Option<Row>)
    requires LogicalTotal(done) > MAX_LOGICAL
    ensures Finish(After(done, rest)) == Err(Corrupt)
  {
    if rest.Some? {
      TotalConcat(done, rest.value);
    }
  }

  /** The column loop: one value at the moving offset, the logical size checked after each. */
  method DecodeColumns(columns: Columns, nulls: seq<bool>, payload: Bytes, start: nat)
    returns (r: Result<Row, CodecError>)
    requires |nulls| == |columns| && start <= |payload|
    ensures r == Finish(DecodeFields(columns, nulls, payload[start..]))
  {
    var values: Row := [];
    var offset, logical := start, 0;
    ghost var spec := DecodeFields(columns, nulls, payload[start..]);
    assert spec.Some? ==> [] + spec.value == spec.value;
    var i := 0;
    while i < |columns|
      invariant 0 <= i <= |columns| && start <= offset <= |payload|
      invariant logical == LogicalTotal(values) <= MAX_LOGICAL
      invariant spec == After(values, DecodeFields(columns[i..], nulls[i..], payload[offset..]))
    {
      assert columns[i..][1..] == columns[i + 1..] && nulls[i..][1..] == nulls[i + 1..];
      if nulls[i] {
        AfterStep(values, Null, DecodeFields(columns[i + 1..], nulls[i + 1..], payload[offset..]));
        OneMore(values, Null);
        values := values + [Null];
      } else {
        var f := ReadField(columns[i].ty, payload[offset..]);
        if f.None? {
          return Err(Corrupt);
        }
        assert payload[offset..][f.value.width..] == payload[offset + f.value.width..];
        AfterStep(values, f.value.value,
            DecodeFields(columns[i + 1..], nulls[i + 1..], payload[offset + f.value.width..]));
        OneMore(values, f.value.value);
        values, offset, logical := values + [f.value.value], offset + f.value.width, logical + Logical(f.value.value);
        if logical > MAX_LOGICAL {
          TooLong(values, DecodeFields(columns[i + 1..], nulls[i + 1..], payload[offset..]));
          return Err(Corrupt);
        }
      }
      i := i + 1;
    }
    if offset != |payload| {
      return Err(Corrupt);
    }
    assert values + [] == values;
    r := Ok(values);
  }

  /** The cases of the column loop. */
  method ReadField(t: Type, b: Bytes) returns (r: Option<Field>)
    ensures r == ReadValue(t, b)
  {
    if t.VarcharType? {
      if |b| < 4 {
        return None;
      }
      var n := FromLittleEndian(b[..4]);
      if n > MAX_VARCHAR || |b| - 4 < n {
        return None;
      }
      var text := b[4..4 + n];
      Utf8.ValidIffWellFormed(text);
      var valid := Utf8.IsValidUtf8(text);
      return if valid then Some(Field(Text(text), 4 + n)) else None;
    }
    r := ReadValue(t, b);
  }

  /** RecordCodec::decode. */
  method DecodeRow(format: RowFormat, columns: Columns, payload: Bytes) returns (r: Result<Row, CodecError>)
    ensures r == Decode(format, columns, payload)
  {
    var schemaOk := CheckColumns(format, columns);
    if !schemaOk {
      return Err(InvalidArgument);
    }
    if |payload| > MAX_PAYLOAD {
      return Err(Corrupt);
    }
    if format.V2? {
      var bitmapOk := CheckBitmap(columns, payload);
      if !bitmapOk {
        return Err(Corrupt);
      }
    }
    r := DecodeColumns(columns, NullFlags(format, |columns|, payload), payload, HeaderSize(format, |columns|));
  }
}
