/** Little-endian integers and the null bitmap of encoded rows (src/storage/record_codec.cpp). */
module CodecBits {
  import opened Common

  type Bytes = seq<byte>

  // ---------------------------------------------------------------- little-endian integers

  function Pow256(n: nat): (r: nat)
    ensures r > 0
  {
    if n == 0 then 1 else 256 * Pow256(n - 1)
  }

  /** append_little_endian. */
  function LittleEndian(n: nat, v: nat): (r: Bytes)
    ensures |r| == n
  {
    if n == 0 then [] else [(v % 256) as byte] + LittleEndian(n - 1, v / 256)
  }

  /** read_little_endian. */
  function FromLittleEndian(b: Bytes): nat {
    if b == [] then 0 else b[0] as nat + 256 * FromLittleEndian(b[1..])
  }

  lemma {:induction false} ReadsWhatWasWritten(n: nat, v: nat)
    requires v < Pow256(n)
    ensures FromLittleEndian(LittleEndian(n, v)) == v
  {
    if n > 0 {
      ReadsWhatWasWritten(n - 1, v / 256);
      assert LittleEndian(n, v)[1..] == LittleEndian(n - 1, v / 256);
    }
  }

  lemma {:induction false} WritesWhatWasRead(b: Bytes)
    ensures LittleEndian(|b|, FromLittleEndian(b)) == b && FromLittleEndian(b) < Pow256(|b|)
  {
    if b != [] {
      WritesWhatWasRead(b[1..]);
      assert b == [b[0]] + b[1..];
    }
  }

  const TWO_32: nat := 0x1_0000_0000
  const TWO_64: nat := 0x1_0000_0000_0000_0000

  lemma Widths()
    ensures Pow256(4) == TWO_32 && Pow256(8) == TWO_64
  {
    assert Pow256(2) == 65536;
    assert Pow256(4) == 65536 * 65536;
    assert Pow256(6) == 65536 * 65536 * 65536;
    assert Pow256(8) == 65536 * 65536 * 65536 * 65536;
  }

  /** Two's complement at the given modulus. */
  function ToUnsigned(v: int, modulus: nat): int {
    if v < 0 then v + modulus else v
  }

  function ToSigned(u: int, modulus: nat): int {
    if u >= modulus / 2 then u - modulus else u
  }

  // ---------------------------------------------------------------- bits of a byte

  /** Bit j of v: v & (1 << j) != 0. */
  predicate Bit(v: nat, j: nat) {
    if j == 0 then v % 2 == 1 else Bit(v / 2, j - 1)
  }

  /** v | (1 << j). */
  function SetBit(v: nat, j: nat): nat {
    if j == 0 then (if v % 2 == 1 then v else v + 1) else v % 2 + 2 * SetBit(v / 2, j - 1)
  }

  function Pack(bits: seq<bool>): (v: nat)
    ensures v < Pow2(|bits|)
  {
    if bits == [] then 0 else (if bits[0] then 1 else 0) + 2 * Pack(bits[1..])
  }

  lemma {:induction false} PackedBit(bits: seq<bool>, j: nat)
    requires j < |bits|
    ensures Bit(Pack(bits), j) == bits[j]
    decreases j
  {
    if j > 0 {
      PackedBit(bits[1..], j - 1);
      assert Pack(bits) / 2 == Pack(bits[1..]);
    }
  }

  lemma {:induction false} PackSetBit(bits: seq<bool>, j: nat)
    requires j < |bits|
    ensures SetBit(Pack(bits), j) == Pack(bits[j := true])
    decreases j
  {
    if j > 0 {
      PackSetBit(bits[1..], j - 1);
      assert bits[j := true][1..] == bits[1..][j - 1 := true];
      assert Pack(bits) / 2 == Pack(bits[1..]);
    } else {
      assert bits[0 := true][1..] == bits[1..];
    }
  }

  lemma {:induction false} PackOfBits(v: nat, bits: seq<bool>)
    requires v < Pow2(|bits|) && forall j :: 0 <= j < |bits| ==> bits[j] == Bit(v, j)
    ensures Pack(bits) == v
    decreases |bits|
  {
    if bits != [] {
      assert forall j :: 0 <= j < |bits[1..]| ==> bits[1..][j] == bits[j + 1] && Bit(v, j + 1) == Bit(v / 2, j);
      PackOfBits(v / 2, bits[1..]);
      assert bits[0] == Bit(v, 0);
    }
  }

  lemma Pow2Of8()
    ensures Pow2(8) == 256
  {
    assert Pow2(4) == 16;
  }

  // ---------------------------------------------------------------- the bitmap

  /** null_bitmap_size. */
  function BitmapSize(n: nat): nat {
    n / 8 + if n % 8 == 0 then 0 else 1
  }

  /** The eight flags of byte k; positions past the end are clear. */
  function Flags(nulls: seq<bool>, k: nat): (r: seq<bool>)
    ensures |r| == 8 && forall j :: 0 <= j < 8 ==> r[j] == (8 * k + j < |nulls| && nulls[8 * k + j])
  {
    seq(8, j requires 0 <= j < 8 => 8 * k + j < |nulls| && nulls[8 * k + j])
  }

  function BitmapByte(nulls: seq<bool>, k: nat): byte {
    Pow2Of8();
    Pack(Flags(nulls, k)) as byte
  }

  function Bitmap(nulls: seq<bool>): (r: Bytes)
    ensures |r| == BitmapSize(|nulls|) && forall k :: 0 <= k < |r| ==> r[k] == BitmapByte(nulls, k)
  {
    seq(BitmapSize(|nulls|), k requires 0 <= k < BitmapSize(|nulls|) => BitmapByte(nulls, k))
  }

  /** Bit i of the bitmap at the start of the payload. */
  predicate NullAt(payload: Bytes, i: nat)
    requires i / 8 < |payload|
  {
    Bit(payload[i / 8] as nat, i % 8)
  }

  lemma BitmapHolds(nulls: seq<bool>, rest: Bytes, i: nat)
    requires i < |nulls|
    ensures i / 8 < |Bitmap(nulls) + rest| && NullAt(Bitmap(nulls) + rest, i) == nulls[i]
  {
    PackedBit(Flags(nulls, i / 8), i % 8);
  }

  /** The unused high bits of the last bitmap byte are zero. */
  predicate SpareBitsClear(payload: Bytes, n: nat)
    requires BitmapSize(n) <= |payload|
  {
    n % 8 == 0 || ClearFrom(payload[BitmapSize(n) - 1] as nat, n % 8)
  }

  predicate ClearFrom(v: nat, low: nat) {
    forall j :: low <= j < 8 ==> !Bit(v, j)
  }

  lemma BitmapSparesClear(nulls: seq<bool>, rest: Bytes)
    ensures SpareBitsClear(Bitmap(nulls) + rest, |nulls|)
  {
    var n := |nulls|;
    if n % 8 != 0 {
      var k := BitmapSize(n) - 1;
      var v := (Bitmap(nulls) + rest)[k] as nat;
      forall j | n % 8 <= j < 8 ensures !Bit(v, j) {
        PackedBit(Flags(nulls, k), j);
      }
    }
  }

  /** Reading a bitmap and writing it again gives the same bytes. */
  lemma BitmapReadBack(payload: Bytes, nulls: seq<bool>)
    requires BitmapSize(|nulls|) <= |payload| && SpareBitsClear(payload, |nulls|)
    requires forall i :: 0 <= i < |nulls| ==> i / 8 < |payload| && nulls[i] == NullAt(payload, i)
    ensures Bitmap(nulls) == payload[..BitmapSize(|nulls|)]
  {
    var n := |nulls|;
    forall k | 0 <= k < BitmapSize(n) ensures Bitmap(nulls)[k] == payload[k] {
      forall j | 0 <= j < 8 ensures Flags(nulls, k)[j] == Bit(payload[k] as nat, j) {
        var i := 8 * k + j;
        if i < n {
          assert i / 8 == k && i % 8 == j;
          assert nulls[i] == NullAt(payload, i);
        } else {
          assert k == BitmapSize(n) - 1 && n % 8 <= j;
        }
      }
      Pow2Of8();
      PackOfBits(payload[k] as nat, Flags(nulls, k));
    }
  }

  lemma BitmapSet(nulls: seq<bool>, i: nat)
    requires i < |nulls|
    ensures i / 8 < |Bitmap(nulls)|
    ensures SetBit(Bitmap(nulls)[i / 8] as nat, i % 8) < 256
    ensures Bitmap(nulls[i := true]) == Bitmap(nulls)[i / 8 := SetBit(Bitmap(nulls)[i / 8] as nat, i % 8) as byte]
  {
    var nulls', k := nulls[i := true], i / 8;
    PackSetBit(Flags(nulls, k), i % 8);
    Pow2Of8();
    assert Flags(nulls', k) == Flags(nulls, k)[i % 8 := true];
    forall m | 0 <= m < BitmapSize(|nulls|) && m != k ensures Bitmap(nulls')[m] == Bitmap(nulls)[m] {
      assert Flags(nulls', m) == Flags(nulls, m);
    }
  }
}
