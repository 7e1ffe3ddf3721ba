/** UTF-8 as Python's `str.encode("utf-8")` and `bytes.decode("utf-8")` compute it:
    the encoding of section 3 of RFC 3629, and the byte grammar of its section 4. */
module Utf8 {
  import opened Wrappers
  import opened ByteStrings

  /** A Unicode scalar value; surrogates have no UTF-8 form. */
  type Scalar = c: int | 0 <= c < 0xD800 || 0xE000 <= c <= 0x10FFFF
  type Text = seq<Scalar>

  function EncodeScalar(c: Scalar): (b: bytes)
    ensures 1 <= |b| <= 4
  {
    var d := c / 64;
    var e := d / 64;
    if c < 0x80 then [c]
    else if c < 0x800 then [0xC0 + d, 0x80 + c % 64]
    else if c < 0x10000 then [0xE0 + e, 0x80 + d % 64, 0x80 + c % 64]
    else [0xF0 + e / 64, 0x80 + e % 64, 0x80 + d % 64, 0x80 + c % 64]
  }

  function Encode(s: Text): bytes
  {
    if s == [] then [] else EncodeScalar(s[0]) + Encode(s[1..])
  }

  /** UTF8-tail. */
  predicate Tail(b: byte) {
    0x80 <= b <= 0xBF
  }

  /** Where the second byte of a three-byte sequence must lie, given the first. */
  predicate Second3(b0: byte, b1: byte) {
    (if b0 == 0xE0 then 0xA0 else 0x80) <= b1 <= (if b0 == 0xED then 0x9F else 0xBF)
  }

  /** Where the second byte of a four-byte sequence must lie, given the first. */
  predicate Second4(b0: byte, b1: byte) {
    (if b0 == 0xF0 then 0x90 else 0x80) <= b1 <= (if b0 == 0xF4 then 0x8F else 0xBF)
  }

  /** The bits read so far, shifted to make room for the six bits of a tail byte. */
  function Append(high: int, tail: byte): int {
    high * 64 + (tail as int - 0x80)
  }

  /** The scalar value of the first UTF8-char of `b`, with the number of bytes it takes. */
  function DecodeScalar(b: bytes): (r: Option<(Scalar, nat)>)
    ensures r.Some? ==> 1 <= r.value.1 <= |b|
  {
    if |b| >= 1 && b[0] < 0x80 then
      Some((b[0], 1))
    else if |b| >= 2 && 0xC2 <= b[0] <= 0xDF && Tail(b[1]) then
      Some((Append(b[0] - 0xC0, b[1]), 2))
    else if |b| >= 3 && 0xE0 <= b[0] <= 0xEF && Second3(b[0], b[1]) && Tail(b[2]) then
      Some((Append(Append(b[0] - 0xE0, b[1]), b[2]), 3))
    else if |b| >= 4 && 0xF0 <= b[0] <= 0xF4 && Second4(b[0], b[1]) && Tail(b[2]) && Tail(b[3]) then
      Some((Append(Append(Append(b[0] - 0xF0, b[1]), b[2]), b[3]), 4))
    else None
  }

  function Decode(b: bytes): Option<Text>
  {
    if b == [] then Some([]) else
    match DecodeScalar(b)
    case None => None
    case Some((c, n)) =>
      match Decode(b[n..])
      case None => None
      case Some(rest) => Some([c] + rest)
  }

  lemma DecodeScalarOfEncode(c: Scalar, rest: bytes)
    ensures DecodeScalar(EncodeScalar(c) + rest) == Some((c, |EncodeScalar(c)|))
  {
    var b := EncodeScalar(c);
    assert forall i :: 0 <= i < |b| ==> (b + rest)[i] == b[i];
  }

  lemma AppendSplits(high: int, tail: byte)
    requires Tail(tail)
    ensures Append(high, tail) / 64 == high && Append(high, tail) % 64 == tail - 0x80
  {
  }

  lemma EncodeOfDecodeScalar(b: bytes)
    requires DecodeScalar(b).Some?
    ensures EncodeScalar(DecodeScalar(b).value.0) == b[..DecodeScalar(b).value.1]
  {
    var (c, n) := DecodeScalar(b).value;
    if n == 2 {
      AppendSplits(b[0] - 0xC0, b[1]);
    } else if n == 3 {
      var d := Append(b[0] - 0xE0, b[1]);
      AppendSplits(b[0] - 0xE0, b[1]);
      AppendSplits(d, b[2]);
    } else if n == 4 {
      var e := Append(b[0] - 0xF0, b[1]);
      var d := Append(e, b[2]);
      AppendSplits(b[0] - 0xF0, b[1]);
      AppendSplits(e, b[2]);
      AppendSplits(d, b[3]);
    }
  }

  /** Every text survives encoding followed by decoding. */
  lemma {:induction false} DecodeEncode(s: Text)
    ensures Decode(Encode(s)) == Some(s)
  {
    hide DecodeScalar, EncodeScalar;
    if s != [] {
      var b := EncodeScalar(s[0]);
      DecodeScalarOfEncode(s[0], Encode(s[1..]));
      DecodeEncode(s[1..]);
      assert (b + Encode(s[1..]))[|b|..] == Encode(s[1..]);
      assert [s[0]] + s[1..] == s;
    }
  }

  /** Every byte string that decodes is the encoding of what it decodes to. */
  lemma {:induction false} EncodeDecode(b: bytes)
    requires Decode(b).Some?
    ensures Encode(Decode(b).value) == b
  {
    hide DecodeScalar, EncodeScalar;
    if b != [] {
      var (c, n) := DecodeScalar(b).value;
      EncodeOfDecodeScalar(b);
      EncodeDecode(b[n..]);
      assert Decode(b).value[1..] == Decode(b[n..]).value;
      assert b[..n] + b[n..] == b;
    }
  }

  /** The examples of section 7 of RFC 3629. */
  lemma Rfc3629Examples()
    ensures Encode([0x41, 0x2262, 0x391, 0x2E]) == [0x41, 0xE2, 0x89, 0xA2, 0xCE, 0x91, 0x2E]
    ensures Encode([0xD55C, 0xAD6D, 0xC5B4]) == [0xED, 0x95, 0x9C, 0xEA, 0xB5, 0xAD, 0xEC, 0x96, 0xB4]
    ensures Encode([0x65E5, 0x672C, 0x8A9E]) == [0xE6, 0x97, 0xA5, 0xE6, 0x9C, 0xAC, 0xE8, 0xAA, 0x9E]
    ensures Encode([0xFEFF, 0x233B4]) == [0xEF, 0xBB, 0xBF, 0xF0, 0xA3, 0x8E, 0xB4]
  {
    hide Encode, EncodeScalar;
    Characters();
    EncodeFour(0x41, 0x2262, 0x391, 0x2E);
    EncodeThree(0xD55C, 0xAD6D, 0xC5B4);
    EncodeThree(0x65E5, 0x672C, 0x8A9E);
    EncodeTwo(0xFEFF, 0x233B4);
  }

  lemma Characters()
    ensures EncodeScalar(0x41) == [0x41] && EncodeScalar(0x2E) == [0x2E] && EncodeScalar(0x391) == [0xCE, 0x91]
    ensures EncodeScalar(0x2262) == [0xE2, 0x89, 0xA2]
    ensures EncodeScalar(0xD55C) == [0xED, 0x95, 0x9C] && EncodeScalar(0xAD6D) == [0xEA, 0xB5, 0xAD]
    ensures EncodeScalar(0xC5B4) == [0xEC, 0x96, 0xB4]
    ensures EncodeScalar(0x65E5) == [0xE6, 0x97, 0xA5] && EncodeScalar(0x672C) == [0xE6, 0x9C, 0xAC]
    ensures EncodeScalar(0x8A9E) == [0xE8, 0xAA, 0x9E]
    ensures EncodeScalar(0xFEFF) == [0xEF, 0xBB, 0xBF] && EncodeScalar(0x233B4) == [0xF0, 0xA3, 0x8E, 0xB4]
  {
  }

  lemma EncodeTwo(a: Scalar, b: Scalar)
    ensures Encode([a, b]) == EncodeScalar(a) + EncodeScalar(b)
  {
    assert [a, b][1..] == [b] && [b][1..] == [];
    assert Encode([b]) == EncodeScalar(b) + Encode([]);
  }

  lemma EncodeThree(a: Scalar, b: Scalar, c: Scalar)
    ensures Encode([a, b, c]) == EncodeScalar(a) + (EncodeScalar(b) + EncodeScalar(c))
  {
    assert [a, b, c][1..] == [b, c];
    EncodeTwo(b, c);
  }

  lemma EncodeFour(a: Scalar, b: Scalar, c: Scalar, d: Scalar)
    ensures Encode([a, b, c, d]) == EncodeScalar(a) + (EncodeScalar(b) + (EncodeScalar(c) + EncodeScalar(d)))
  {
    assert [a, b, c, d][1..] == [b, c, d];
    EncodeThree(b, c, d);
  }
}
