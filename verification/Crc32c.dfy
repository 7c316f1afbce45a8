/** Fixed-width integers and the masked CRC-32C that guards log records. */
module Crc32c {
  import opened Keys
  import opened Coding

  const TWO_32 := 0x1_0000_0000
  type Word = x: int | 0 <= x < 0x1_0000_0000

  /** EncodeFixed32: little endian. */
  function EncodeFixed32(v: Word): (r: Bytes)
    ensures |r| == 4
  {
    Coding.Fixed(v, 4)
  }

  function DecodeFixed32(b: Bytes): Word
    requires |b| >= 4
  {
    Coding.UnfixedBound(b[..4]);
    Coding.FixedLimits();
    Coding.Unfixed(b[..4])
  }

  lemma FixedRoundTrip(v: Word, rest: Bytes)
    ensures DecodeFixed32(EncodeFixed32(v) + rest) == v
  {
    assert (EncodeFixed32(v) + rest)[..4] == EncodeFixed32(v);
    Coding.FixedLimits();
    Coding.FixedRoundTrip(v, 4);
  }

  /** Exclusive or, bit by bit. */
  function Xor(a: nat, b: nat): (r: nat)
    decreases a + b
  {
    if a == 0 then b else if b == 0 then a else (a + b) % 2 + 2 * Xor(a / 2, b / 2)
  }

  lemma {:induction false} XorStep(a: nat, b: nat)
    ensures Xor(a, b) == (a + b) % 2 + 2 * Xor(a / 2, b / 2)
  {
    if a == 0 || b == 0 {
      assert Xor(a / 2, b / 2) == a / 2 + b / 2;
    }
  }

  lemma XorHalf(a: nat, b: nat)
    ensures Xor(a, b) % 2 == (a + b) % 2 && Xor(a, b) / 2 == Xor(a / 2, b / 2)
  {
    XorStep(a, b);
    Halves((a + b) % 2, Xor(a / 2, b / 2));
  }

  lemma Halves(bit: nat, h: nat)
    requires bit < 2
    ensures (bit + 2 * h) % 2 == bit && (bit + 2 * h) / 2 == h
  {
  }

  lemma {:induction false} XorBound(a: nat, b: nat, k: nat)
    requires a < Pow2(k) && b < Pow2(k)
    ensures Xor(a, b) < Pow2(k)
  {
    if k > 0 {
      XorStep(a, b);
      XorBound(a / 2, b / 2, k - 1);
    }
  }

  lemma {:induction false} XorTop(a: nat, b: nat, k: nat)
    requires a < Pow2(k) <= b
    ensures Xor(a, b) >= Pow2(k)
  {
    XorStep(a, b);
    if k > 0 {
      XorTop(a / 2, b / 2, k - 1);
    }
  }

  lemma {:induction false} XorInjective(a: nat, b: nat, c: nat)
    requires Xor(a, c) == Xor(b, c)
    ensures a == b
    decreases a + b + c
  {
    if a + b + c > 0 {
      XorHalf(a, c);
      XorHalf(b, c);
      XorInjective(a / 2, b / 2, c / 2);
      SameParity(a, b, c);
    }
  }

  lemma SameParity(a: nat, b: nat, c: nat)
    requires (a + c) % 2 == (b + c) % 2 && a / 2 == b / 2
    ensures a == b
  {
  }

  lemma {:induction false} XorCommutes(a: nat, b: nat)
    ensures Xor(a, b) == Xor(b, a)
    decreases a + b
  {
    if a > 0 && b > 0 {
      XorCommutes(a / 2, b / 2);
    }
  }

  lemma WordSize()
    ensures Pow2(31) == 0x8000_0000 && Pow2(32) == TWO_32
  {
    assert Pow2(8) == 256;
    assert Pow2(16) == 65536 by { assert Pow2(12) == 4096; }
    assert Pow2(24) == 16777216 by { assert Pow2(20) == 1048576; }
    assert Pow2(28) == 268435456;
  }

  const POLYNOMIAL: Word := 0x82f63b78

  /** One bit of the CRC-32C division by the reflected polynomial. */
  function BitStep(c: Word): Word {
    WordSize();
    XorBound(c / 2, POLYNOMIAL, 32);
    if c % 2 == 1 then Xor(c / 2, POLYNOMIAL) else c / 2
  }

  function BitSteps(c: Word, n: nat): Word { if n == 0 then c else BitStep(BitSteps(c, n - 1)) }

  function ByteStep(c: Word, b: Byte): Word {
    WordSize();
    XorBound(c, b, 32);
    BitSteps(Xor(c, b), 8)
  }

  function Fold(c: Word, data: Bytes): Word {
    if data == [] then c else ByteStep(Fold(c, data[..|data| - 1]), data[|data| - 1])
  }

  /** crc32c::Extend: xor with all ones before and after the fold. */
  function Extend(crc: Word, data: Bytes): Word {
    TWO_32 - 1 - Fold(TWO_32 - 1 - crc, data)
  }

  function CrcValue(data: Bytes): Word { Extend(0, data) }

  lemma {:induction false} FoldComposes(c: Word, a: Bytes, b: Bytes)
    ensures Fold(Fold(c, a), b) == Fold(c, a + b)
  {
    if b == [] {
      assert a + b == a;
    } else {
      var front := b[..|b| - 1];
      FoldComposes(c, a, front);
      assert (a + b)[..|a + b| - 1] == a + front;
    }
  }

  /** Extending the CRC of a prefix gives the CRC of the whole. */
  lemma ExtendComposes(a: Bytes, b: Bytes)
    ensures Extend(CrcValue(a), b) == CrcValue(a + b)
  {
    FoldComposes(TWO_32 - 1, a, b);
  }

  // ----- every byte counts

  /** The polynomial's top bit is set, so a step can be undone. */
  lemma BitStepInjective(c: Word, d: Word)
    requires BitStep(c) == BitStep(d)
    ensures c == d
  {
    WordSize();
    XorTop(c / 2, POLYNOMIAL, 31);
    XorTop(d / 2, POLYNOMIAL, 31);
    if c % 2 == 1 && d % 2 == 1 {
      XorInjective(c / 2, d / 2, POLYNOMIAL);
    }
  }

  lemma {:induction false} BitStepsInjective(c: Word, d: Word, n: nat)
    requires BitSteps(c, n) == BitSteps(d, n)
    ensures c == d
  {
    if n > 0 {
      BitStepInjective(BitSteps(c, n - 1), BitSteps(d, n - 1));
      BitStepsInjective(c, d, n - 1);
    }
  }

  /** The step loses nothing: neither of the state, nor of the byte. */
  lemma {:induction false} ByteStepInjective(c: Word, d: Word, a: Byte, b: Byte)
    requires ByteStep(c, a) == ByteStep(d, b)
    ensures a == b ==> c == d
    ensures c == d ==> a == b
  {
    WordSize();
    XorBound(c, a, 32);
    XorBound(d, b, 32);
    BitStepsInjective(Xor(c, a), Xor(d, b), 8);
    if a == b {
      XorInjective(c, d, a);
    }
    if c == d {
      XorCommutes(c, a);
      XorCommutes(d, b);
      XorInjective(a, b, c);
    }
  }

  lemma {:induction false} FoldInjective(c: Word, d: Word, data: Bytes)
    requires Fold(c, data) == Fold(d, data)
    ensures c == d
  {
    if data != [] {
      var front, last := data[..|data| - 1], data[|data| - 1];
      ByteStepInjective(Fold(c, front), Fold(d, front), last, last);
      FoldInjective(c, d, front);
    }
  }

  lemma FoldOne(c: Word, b: Byte)
    ensures Fold(c, [b]) == ByteStep(c, b)
  {
    assert [b][..0] == [];
  }

  /** Two strings that differ in a single byte have different checksums, wherever it is. */
  lemma {:induction false} OneByteChangesCrc(head: Bytes, a: Byte, b: Byte, tail: Bytes)
    requires a != b
    ensures CrcValue(head + [a] + tail) != CrcValue(head + [b] + tail)
  {
    var start: Word := TWO_32 - 1;
    var c := Fold(start, head);
    FoldComposes(start, head, [a]);
    FoldComposes(start, head, [b]);
    FoldComposes(start, head + [a], tail);
    FoldComposes(start, head + [b], tail);
    FoldOne(c, a);
    FoldOne(c, b);
    if CrcValue(head + [a] + tail) == CrcValue(head + [b] + tail) {
      FoldInjective(ByteStep(c, a), ByteStep(c, b), tail);
      ByteStepInjective(c, c, a, b);
    }
  }

  const MASK_DELTA: Word := 0xa282ead8

  /** crc32c::Mask: rotate right by 15 bits and add a constant. */
  function Mask(crc: Word): Word {
    (crc / 32768 + crc % 32768 * 131072 + MASK_DELTA) % TWO_32
  }

  function Unmask(masked: Word): Word {
    var rot := (masked - MASK_DELTA + TWO_32) % TWO_32;
    rot / 131072 + rot % 131072 * 32768
  }

  lemma UnmaskMask(crc: Word)
    ensures Unmask(Mask(crc)) == crc
  {
    var rot := crc / 32768 + crc % 32768 * 131072;
    assert 0 <= rot < TWO_32;
    assert (Mask(crc) - MASK_DELTA + TWO_32) % TWO_32 == rot;
    assert rot / 131072 == crc % 32768 + crc / 32768 / 131072;
  }
}
