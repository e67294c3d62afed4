/** Bytes, and the big-endian integers of the DHT snapshot format. */
module Bytes {

  type byte = b: int | 0 <= b < 0x100
  type bytes = seq<byte>

  const U16_LIMIT := 0x1_0000
  const U32_LIMIT := 0x1_0000_0000

  /** The narrowing cast `n as u16` followed by `to_be_bytes`: high bits are lost. */
  function U16ToBe(n: nat): bytes {
    [(n % U16_LIMIT) / 0x100, n % 0x100]
  }

  function U16FromBe(b: bytes): nat
    requires |b| == 2
  {
    var high: int, low: int := b[0], b[1];
    high * 0x100 + low
  }

  /** The narrowing cast `n as u32` followed by `to_be_bytes`. */
  function U32ToBe(n: nat): bytes {
    var k := n % U32_LIMIT;
    U16ToBe(k / U16_LIMIT) + U16ToBe(k % U16_LIMIT)
  }

  function U32FromBe(b: bytes): nat
    requires |b| == 4
  {
    U16FromBe(b[..2]) * U16_LIMIT + U16FromBe(b[2..])
  }

  lemma U16RoundTrip(n: nat)
    ensures U16FromBe(U16ToBe(n)) == n % U16_LIMIT
  {
    var q, k := n / U16_LIMIT, n % U16_LIMIT;
    assert n == 0x100 * (0x100 * q + k / 0x100) + k % 0x100;
  }

  lemma U16Canonical(b: bytes)
    requires |b| == 2
    ensures U16FromBe(b) < U16_LIMIT && U16ToBe(U16FromBe(b)) == b
  {
    var n := U16FromBe(b);
    assert n / 0x100 == b[0] && n % 0x100 == b[1];
  }

  lemma U32RoundTrip(n: nat)
    ensures U32FromBe(U32ToBe(n)) == n % U32_LIMIT
  {
    var k := n % U32_LIMIT;
    U16RoundTrip(k / U16_LIMIT);
    U16RoundTrip(k % U16_LIMIT);
    hide U16ToBe, U16FromBe;
    assert U32ToBe(n)[..2] == U16ToBe(k / U16_LIMIT) && U32ToBe(n)[2..] == U16ToBe(k % U16_LIMIT) by {
      U16Length(k / U16_LIMIT);
      U16Length(k % U16_LIMIT);
    }
  }

  lemma U16Length(n: nat)
    ensures |U16ToBe(n)| == 2
  {
  }

  lemma U32Canonical(b: bytes)
    requires |b| == 4
    ensures U32FromBe(b) < U32_LIMIT && U32ToBe(U32FromBe(b)) == b
  {
    U16Canonical(b[..2]);
    U16Canonical(b[2..]);
    assert b == b[..2] + b[2..];
    hide U16ToBe, U16FromBe;
    var n := U32FromBe(b);
    assert n / U16_LIMIT == U16FromBe(b[..2]) && n % U16_LIMIT == U16FromBe(b[2..]);
  }
}
