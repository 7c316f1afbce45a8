/** How nanopb maps signed integers to unsigned ones. */
module PbWire {
  import opened Coding

  /** The 64-bit two's complement image of a signed value. */
  function ToUnsigned(i: int): (r: nat)
    requires -0x8000_0000_0000_0000 <= i < 0x8000_0000_0000_0000
    ensures r < TWO64
  {
    if i < 0 then i + TWO64 else i
  }

  /** A cast to a signed type of `modulus` values. */
  function ToSigned(n: int, modulus: nat): (r: int)
    requires modulus > 0 && modulus % 2 == 0
    ensures -(modulus / 2) <= r < modulus / 2
    ensures r == n % modulus || r == n % modulus - modulus
  {
    if n % modulus < modulus / 2 then n % modulus else n % modulus - modulus
  }

  /** pb_encode_svarint's mapping: small magnitudes become small numbers. */
  function ZigZag(i: int): (r: nat)
    requires -0x8000_0000_0000_0000 <= i < 0x8000_0000_0000_0000
    ensures r < TWO64
  {
    if i < 0 then -2 * i - 1 else 2 * i
  }

  function UnZigZag(n: nat): (r: int)
    requires n < TWO64
    ensures -0x8000_0000_0000_0000 <= r < 0x8000_0000_0000_0000
    ensures ZigZag(r) == n
  {
    if n % 2 == 1 then -(n / 2) - 1 else n / 2
  }

  lemma ZigZagRoundTrip(i: int)
    requires -0x8000_0000_0000_0000 <= i < 0x8000_0000_0000_0000
    ensures UnZigZag(ZigZag(i)) == i
  {
  }
}
