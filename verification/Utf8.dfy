/** UTF-8 validity: the byte-class checks of the codec and the lexer against the encoding of RFC 3629. */
module Utf8 {
  import opened Common

  type Bytes = seq<byte>

  // ---------------------------------------------------------------- the encoding (sections 3 and 4 of RFC 3629)

  /** A Unicode scalar value: up to U+10FFFF, surrogates excluded. */
  predicate Scalar(c: nat) {
    c < 0xD800 || 0xE000 <= c < 0x11_0000
  }

  function Tail(c: nat): byte {
    (0x80 + c % 64) as byte
  }

  function EncodeScalar(c: nat): (r: Bytes)
    requires Scalar(c)
    ensures 1 <= |r| <= 4
  {
    if c < 0x80 then [c as byte]
    else if c < 0x800 then [(0xC0 + c / 64) as byte, Tail(c)]
    else if c < 0x1_0000 then [(0xE0 + c / 4096) as byte, Tail(c / 64), Tail(c)]
    else [(0xF0 + c / 262144) as byte, Tail(c / 4096), Tail(c / 64), Tail(c)]
  }

  predicate Scalars(cs: seq<nat>) {
    forall i :: 0 <= i < |cs| ==> Scalar(cs[i])
  }

  function Encode(cs: seq<nat>): Bytes
    requires Scalars(cs)
  {
    if cs == [] then [] else EncodeScalar(cs[0]) + Encode(cs[1..])
  }

  /** The text is the encoding of some sequence of scalar values. */
  ghost predicate WellFormed(text: Bytes) {
    exists cs :: Scalars(cs) && Encode(cs) == text
  }

  // ---------------------------------------------------------------- the byte classes

  predicate Continuation(b: byte) {
    0x80 <= b <= 0xBF
  }

  predicate Second3(first: byte, second: byte) {
    if first == 0xE0 then 0xA0 <= second <= 0xBF
    else if first == 0xED then 0x80 <= second <= 0x9F
    else Continuation(second)
  }

  predicate Second4(first: byte, second: byte) {
    if first == 0xF0 then 0x90 <= second <= 0xBF
    else if first == 0xF4 then 0x80 <= second <= 0x8F
    else Continuation(second)
  }

  /** How many bytes the first character takes, 0 when it is malformed. */
  function FirstWidth(t: Bytes): (w: nat)
    requires t != []
    ensures w <= 4 && w <= |t|
  {
    if t[0] <= 0x7F then 1
    else if 0xC2 <= t[0] <= 0xDF then (if |t| >= 2 && Continuation(t[1]) then 2 else 0)
    else if 0xE0 <= t[0] <= 0xEF then
      (if |t| >= 3 && Second3(t[0], t[1]) && Continuation(t[2]) then 3 else 0)
    else if 0xF0 <= t[0] <= 0xF4 then
      (if |t| >= 4 && Second4(t[0], t[1]) && Continuation(t[2]) && Continuation(t[3]) then 4 else 0)
    else 0
  }

  predicate Valid(t: Bytes) {
    t == [] || (FirstWidth(t) > 0 && Valid(t[FirstWidth(t)..]))
  }

  // ---------------------------------------------------------------- the classes are the encoding

  /** The scalar value of a well-formed character. */
  function DecodeScalar(t: Bytes): nat
    requires t != [] && FirstWidth(t) > 0
  {
    match FirstWidth(t)
    case 1 => t[0] as nat
    case 2 => (t[0] as nat - 0xC0) * 64 + (t[1] as nat - 0x80)
    case 3 => (t[0] as nat - 0xE0) * 4096 + (t[1] as nat - 0x80) * 64 + (t[2] as nat - 0x80)
    case _ =>
      (t[0] as nat - 0xF0) * 262144 + (t[1] as nat - 0x80) * 4096 + (t[2] as nat - 0x80) * 64 +
      (t[3] as nat - 0x80)
  }

  /** Reading base-64 digits back. */
  lemma Digits(high: nat, low: nat)
    requires low < 64
    ensures (high * 64 + low) / 64 == high && (high * 64 + low) % 64 == low
  {
  }

  lemma Decodes3(t: Bytes)
    requires t != [] && FirstWidth(t) == 3
    ensures Scalar(DecodeScalar(t)) && EncodeScalar(DecodeScalar(t)) == t[..3]
  {
    var a, b, c := t[0] as nat - 0xE0, t[1] as nat - 0x80, t[2] as nat - 0x80;
    var v := DecodeScalar(t);
    assert v == (a * 64 + b) * 64 + c;
    Digits(a * 64 + b, c);
    Digits(a, b);
    assert v / 64 == a * 64 + b && v / 4096 == a;
  }

  lemma Decodes4(t: Bytes)
    requires t != [] && FirstWidth(t) == 4
    ensures Scalar(DecodeScalar(t)) && EncodeScalar(DecodeScalar(t)) == t[..4]
  {
    var a, b, c, d := t[0] as nat - 0xF0, t[1] as nat - 0x80, t[2] as nat - 0x80, t[3] as nat - 0x80;
    var v := DecodeScalar(t);
    assert v == ((a * 64 + b) * 64 + c) * 64 + d;
    Digits((a * 64 + b) * 64 + c, d);
    Digits(a * 64 + b, c);
    Digits(a, b);
    assert v / 64 == (a * 64 + b) * 64 + c && v / 4096 == a * 64 + b && v / 262144 == a;
  }

  lemma DecodesToScalar(t: Bytes)
    requires t != [] && FirstWidth(t) > 0
    ensures Scalar(DecodeScalar(t)) && EncodeScalar(DecodeScalar(t)) == t[..FirstWidth(t)]
  {
    match FirstWidth(t)
    case 1 =>
    case 2 => Digits(t[0] as nat - 0xC0, t[1] as nat - 0x80);
    case 3 => Decodes3(t);
    case _ => Decodes4(t);
  }

  lemma EncodesToWidth(c: nat, rest: Bytes)
    requires Scalar(c)
    ensures FirstWidth(EncodeScalar(c) + rest) == |EncodeScalar(c)|
  {
    var t := EncodeScalar(c) + rest;
    assert forall i :: 0 <= i < |EncodeScalar(c)| ==> t[i] == EncodeScalar(c)[i];
  }

  lemma {:induction false} ValidIsEncoding(t: Bytes) returns (cs: seq<nat>)
    requires Valid(t)
    ensures Scalars(cs) && Encode(cs) == t
    decreases |t|
  {
    if t == [] {
      cs := [];
    } else {
      var w := FirstWidth(t);
      var rest := ValidIsEncoding(t[w..]);
      DecodesToScalar(t);
      cs := [DecodeScalar(t)] + rest;
      assert cs[1..] == rest;
      assert t == t[..w] + t[w..];
    }
  }

  lemma {:induction false} EncodingIsValid(cs: seq<nat>)
    requires Scalars(cs)
    ensures Valid(Encode(cs))
  {
    if cs != [] {
      EncodingIsValid(cs[1..]);
      EncodesToWidth(cs[0], Encode(cs[1..]));
      assert Encode(cs)[|EncodeScalar(cs[0])|..] == Encode(cs[1..]);
    }
  }

  /** The byte-class check accepts exactly the well-formed texts. */
  lemma ValidIffWellFormed(t: Bytes)
    ensures Valid(t) <==> WellFormed(t)
  {
    if Valid(t) {
      var cs := ValidIsEncoding(t);
    }
    if WellFormed(t) {
      var cs :| Scalars(cs) && Encode(cs) == t;
      EncodingIsValid(cs);
    }
  }

  // ---------------------------------------------------------------- the two loops

  /** is_valid_utf8 of the record codec. */
  method IsValidUtf8(t: Bytes) returns (ok: bool)
    ensures ok <==> WellFormed(t)
  {
    ValidIffWellFormed(t);
    var i := 0;
    while i < |t|
      invariant 0 <= i <= |t|
      invariant Valid(t) == Valid(t[i..])
    {
      ghost var rest := t[i..];
      var first := t[i];
      if first <= 0x7F {
        assert t[i + 1..] == rest[1..];
        i := i + 1;
      } else if 0xC2 <= first <= 0xDF {
        if i + 1 >= |t| || !Continuation(t[i + 1]) {
          return false;
        }
        assert t[i + 2..] == rest[2..];
        i := i + 2;
      } else if 0xE0 <= first <= 0xEF {
        if i + 2 >= |t| {
          return false;
        }
        if !Second3(first, t[i + 1]) || !Continuation(t[i + 2]) {
          return false;
        }
        assert t[i + 3..] == rest[3..];
        i := i + 3;
      } else if 0xF0 <= first <= 0xF4 {
        if i + 3 >= |t| {
          return false;
        }
        if !Second4(first, t[i + 1]) || !Continuation(t[i + 2]) || !Continuation(t[i + 3]) {
          return false;
        }
        assert t[i + 4..] == rest[4..];
        i := i + 4;
      } else {
        return false;
      }
    }
    return true;
  }

  /** is_valid_utf8 of the lexer, with its own case split; it decides the same texts. */
  method LexerIsValidUtf8(t: Bytes) returns (ok: bool)
    ensures ok <==> WellFormed(t)
  {
    ValidIffWellFormed(t);
    var i := 0;
    while i < |t|
      invariant 0 <= i <= |t|
      invariant Valid(t) == Valid(t[i..])
    {
      ghost var rest := t[i..];
      var first := t[i];
      if first <= 0x7F {
        assert t[i + 1..] == rest[1..];
        i := i + 1;
      } else if 0xC2 <= first <= 0xDF {
        if i + 1 >= |t| || !Continuation(t[i + 1]) {
          return false;
        }
        assert t[i + 2..] == rest[2..];
        i := i + 2;
      } else if 0xE0 <= first <= 0xEF {
        if i + 2 >= |t| {
          return false;
        }
        var second := t[i + 1];
        var secondValid :=
          (first == 0xE0 && 0xA0 <= second <= 0xBF) || (first == 0xED && 0x80 <= second <= 0x9F) ||
          ((0xE1 <= first <= 0xEC || 0xEE <= first <= 0xEF) && Continuation(second));
        if !secondValid || !Continuation(t[i + 2]) {
          return false;
        }
        assert t[i + 3..] == rest[3..];
        i := i + 3;
      } else if 0xF0 <= first <= 0xF4 {
        if i + 3 >= |t| {
          return false;
        }
        var second := t[i + 1];
        var secondValid :=
          (first == 0xF0 && 0x90 <= second <= 0xBF) || (0xF1 <= first <= 0xF3 && Continuation(second)) ||
          (first == 0xF4 && 0x80 <= second <= 0x8F);
        if !secondValid || !Continuation(t[i + 2]) || !Continuation(t[i + 3]) {
          return false;
        }
        assert t[i + 4..] == rest[4..];
        i := i + 4;
      } else {
        return false;
      }
    }
    return true;
  }
}
