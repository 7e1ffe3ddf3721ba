/** Python's `bytes`, the little-endian integers of `struct`, and lower-case hex digits. */
module ByteStrings {

  type byte = x: int | 0 <= x < 256
  type bytes = seq<byte>

  /** A 32-byte digest: the result of SHA-256 and of HMAC-SHA256. */
  type Digest = d: bytes | |d| == 32 witness seq(32, i => 0)

  function Pack16(n: int): (b: bytes)
    requires 0 <= n < 0x1_0000
    ensures |b| == 2
  {
    [n % 256, n / 256]
  }

  function Unpack16(b: bytes): int
    requires |b| == 2
  {
    b[0] as int + 256 * (b[1] as int)
  }

  function Pack32(n: int): (b: bytes)
    requires 0 <= n < 0x1_0000_0000
    ensures |b| == 4
  {
    Pack16(n % 0x1_0000) + Pack16(n / 0x1_0000)
  }

  function Unpack32(b: bytes): int
    requires |b| == 4
  {
    Unpack16(b[..2]) + 0x1_0000 * Unpack16(b[2..])
  }

  /** `struct.pack("<I", ...)` and `struct.unpack("<I", ...)` undo each other. */
  lemma Pack32Inverse(n: int, b: bytes)
    requires 0 <= n < 0x1_0000_0000 && |b| == 4
    ensures Unpack32(Pack32(n)) == n
    ensures 0 <= Unpack32(b) < 0x1_0000_0000 && Pack32(Unpack32(b)) == b
  {
    assert Pack32(n)[..2] == Pack16(n % 0x1_0000);
    assert Pack32(n)[2..] == Pack16(n / 0x1_0000);
    var lo, hi := Unpack16(b[..2]), Unpack16(b[2..]);
    assert Unpack32(b) % 0x1_0000 == lo && Unpack32(b) / 0x1_0000 == hi;
    assert Pack16(lo) == b[..2] && Pack16(hi) == b[2..];
    assert b[..2] + b[2..] == b;
  }

  /** The ASCII code of a lower-case hex digit. */
  function HexDigit(n: int): byte
    requires 0 <= n < 16
  {
    if n < 10 then 48 + n else 87 + n
  }

  function Hex(b: bytes): (h: bytes)
    ensures |h| == 2 * |b|
    ensures forall i :: 0 <= i < |h| ==> 48 <= h[i] <= 57 || 97 <= h[i] <= 102
  {
    if b == [] then [] else [HexDigit(b[0] / 16), HexDigit(b[0] % 16)] + Hex(b[1..])
  }

  function HexValue(c: byte): int {
    if c < 58 then c - 48 else c - 87
  }

  /** Every two digits read back as the byte they stand for. */
  lemma {:induction false} HexReadsBack(b: bytes, i: nat)
    requires i < |b|
    ensures 16 * HexValue(Hex(b)[2 * i]) + HexValue(Hex(b)[2 * i + 1]) == b[i]
  {
    if i > 0 {
      HexReadsBack(b[1..], i - 1);
    }
  }
}
