/** Base 128 varints and little-endian fixed widths: the integer formats that LevelDB's blocks and manifests
    and nanopb's messages share. */
module Coding {
  import opened Keys

  /** What a reader of a byte string makes of it; a failed read also leaves a remainder behind. */
  datatype Parsed<T> = Fail(rest: Bytes) | Got(value: T, rest: Bytes)

  const TWO32: nat := 0x1_0000_0000
  const TWO64: nat := 0x1_0000_0000_0000_0000

  function Varint(n: nat): (r: Bytes)
    ensures r != []
  {
    if n < 128 then [n] else [128 + n % 128] + Varint(n / 128)
  }

  /** Reads at most `max` bytes, and fails once they are all continued or the input ends. */
  function ReadVarint(b: Bytes, max: nat): (r: Parsed<nat>)
    ensures |r.rest| <= |b| && (r.Got? ==> |r.rest| < |b|)
    decreases max
  {
    if max == 0 || b == [] then Fail(b)
    else if b[0] < 128 then Got(b[0], b[1..])
    else match ReadVarint(b[1..], max - 1)
         case Fail(rest) => Fail(rest)
         case Got(v, rest) => Got(b[0] - 128 + 128 * v, rest)
  }

  function Pow2(k: nat): (r: nat)
    ensures r > 0
  {
    if k == 0 then 1 else 2 * Pow2(k - 1)
  }

  function Pow128(k: nat): (r: nat)
    ensures r > 0
  {
    if k == 0 then 1 else 128 * Pow128(k - 1)
  }

  /** A number below 128^max is written in at most max bytes and read back. */
  lemma {:induction false} VarintRoundTrip(n: nat, max: nat, rest: Bytes)
    requires max > 0 && n < Pow128(max)
    ensures |Varint(n)| <= max && ReadVarint(Varint(n) + rest, max) == Got(n, rest)
    decreases max
  {
    if n < 128 {
      assert (Varint(n) + rest)[1..] == rest;
    } else {
      assert n < 128 * Pow128(max - 1);
      VarintRoundTrip(n / 128, max - 1, rest);
      assert (Varint(n) + rest)[1..] == Varint(n / 128) + rest;
    }
  }

  lemma Limits()
    ensures TWO32 <= Pow128(5) && TWO64 <= Pow128(10)
  {
    assert Pow128(1) == 128 && Pow128(2) == 16384 && Pow128(3) == 2097152 && Pow128(4) == 268435456;
    assert Pow128(5) == 34359738368;
    assert Pow128(6) == 128 * Pow128(5) && Pow128(7) == 128 * Pow128(6);
    assert Pow128(8) == 128 * Pow128(7) && Pow128(9) == 128 * Pow128(8);
  }

  /** A 64-bit varint: ten bytes at most, the result cut to 64 bits. */
  function Read64(b: Bytes): (r: Parsed<nat>)
    ensures |r.rest| <= |b| && (r.Got? ==> |r.rest| < |b| && r.value < TWO64)
  {
    match ReadVarint(b, 10)
    case Fail(rest) => Fail(rest)
    case Got(v, rest) => Got(v % TWO64, rest)
  }

  /** A 32-bit varint: five bytes at most, the result cut to 32 bits. */
  function Read32(b: Bytes): (r: Parsed<nat>)
    ensures |r.rest| <= |b| && (r.Got? ==> |r.rest| < |b| && r.value < TWO32)
  {
    match ReadVarint(b, 5)
    case Fail(rest) => Fail(rest)
    case Got(v, rest) => Got(v % TWO32, rest)
  }

  lemma ModSmall(n: nat, m: nat)
    requires n < m
    ensures n % m == n
  {
  }

  lemma Read64RoundTrip(n: nat, rest: Bytes)
    requires n < TWO64
    ensures Read64(Varint(n) + rest) == Got(n, rest)
  {
    Limits();
    VarintRoundTrip(n, 10, rest);
    ModSmall(n, TWO64);
  }

  lemma Read32RoundTrip(n: nat, rest: Bytes)
    requires n < TWO32
    ensures Read32(Varint(n) + rest) == Got(n, rest)
  {
    Limits();
    VarintRoundTrip(n, 5, rest);
    ModSmall(n, TWO32);
  }

  /** n little-endian in k bytes. */
  function Fixed(n: nat, k: nat): (r: Bytes)
    ensures |r| == k
  {
    if k == 0 then [] else [n % 256] + Fixed(n / 256, k - 1)
  }

  function Unfixed(b: Bytes): (n: nat) {
    if b == [] then 0 else var low: int := b[0]; low + 256 * Unfixed(b[1..])
  }

  function Pow256(k: nat): (r: nat)
    ensures r > 0
  {
    if k == 0 then 1 else 256 * Pow256(k - 1)
  }

  lemma {:induction false} FixedRoundTrip(n: nat, k: nat)
    requires n < Pow256(k)
    ensures Unfixed(Fixed(n, k)) == n
  {
    if k > 0 {
      assert n < 256 * Pow256(k - 1);
      FixedRoundTrip(n / 256, k - 1);
      assert Fixed(n, k)[1..] == Fixed(n / 256, k - 1);
    }
  }

  lemma {:induction false} UnfixedBound(b: Bytes)
    ensures Unfixed(b) < Pow256(|b|)
  {
    if b != [] {
      UnfixedBound(b[1..]);
    }
  }

  lemma FixedLimits()
    ensures Pow256(4) == TWO32 && Pow256(8) == TWO64
  {
    assert Pow256(1) == 256 && Pow256(2) == 65536 && Pow256(3) == 16777216;
    assert Pow256(5) == 256 * Pow256(4) && Pow256(6) == 256 * Pow256(5) && Pow256(7) == 256 * Pow256(6);
  }

  /** Four bytes, low one first. */
  ghost predicate LittleEndian4(b: Bytes, n: nat) {
    |b| == 4 && b[0] == n % 256 && b[1] == n / 0x100 % 256 && b[2] == n / 0x1_0000 % 256 && b[3] == n / 0x100_0000 % 256
  }

  /** Eight bytes, low one first. */
  ghost predicate LittleEndian8(b: Bytes, n: nat) {
    |b| == 8 && LittleEndian4(b[..4], n) && LittleEndian4(b[4..], n / 0x1_0000_0000)
  }

  lemma {:induction false} FirstFour(n: nat, k: nat)
    ensures Fixed(n, k + 4) == [n % 256, n / 0x100 % 256, n / 0x1_0000 % 256, n / 0x100_0000 % 256] + Fixed(n / 0x1_0000_0000, k)
  {
    var n1 := n / 256;
    var n2 := n1 / 256;
    var n3 := n2 / 256;
    assert n2 == n / 0x1_0000 && n3 == n / 0x100_0000 && n3 / 256 == n / 0x1_0000_0000;
    assert Fixed(n3, k + 1) == [n3 % 256] + Fixed(n3 / 256, k);
    assert Fixed(n2, k + 2) == [n2 % 256] + Fixed(n3, k + 1);
    assert Fixed(n1, k + 3) == [n1 % 256] + Fixed(n2, k + 2);
    assert Fixed(n, k + 4) == [n % 256] + Fixed(n1, k + 3);
  }

  lemma FixedIs4(n: nat)
    ensures LittleEndian4(Fixed(n, 4), n)
  {
    FirstFour(n, 0);
  }

  lemma FixedIs8(n: nat)
    ensures LittleEndian8(Fixed(n, 8), n)
  {
    FirstFour(n, 4);
    FirstFour(n / 0x1_0000_0000, 0);
  }

  // ----- base 128

  /** Seven bits a byte, low ones first. */
  function GroupSum(b: Bytes): (n: nat) {
    if b == [] then 0 else b[0] % 128 + 128 * GroupSum(b[1..])
  }

  /** b spells n: the top bit is set on every byte but the last. */
  ghost predicate Base128(b: Bytes, n: nat) {
    && |b| >= 1 && b[|b| - 1] < 128 && (forall i :: 0 <= i < |b| - 1 ==> b[i] >= 128)
    && n == GroupSum(b)
  }

  lemma {:induction false} VarintIsBase128(n: nat)
    ensures Base128(Varint(n), n)
    ensures |Varint(n)| > 1 ==> Varint(n)[|Varint(n)| - 1] != 0
  {
    if n >= 128 {
      VarintIsBase128(n / 128);
      var b, rest := Varint(n), Varint(n / 128);
      assert b == [128 + n % 128] + rest && b[1..] == rest;
      assert forall i :: 0 <= i < |rest| ==> b[i + 1] == rest[i];
      assert b[0] % 128 == n % 128;
    } else {
      assert Varint(n)[1..] == [];
    }
  }

  /** A value has only one shortest spelling, so the encoder's is it. */
  lemma {:induction false} ShortestIsVarint(b: Bytes, n: nat)
    requires Base128(b, n) && (|b| > 1 ==> b[|b| - 1] != 0)
    ensures b == Varint(n)
  {
    if |b| == 1 {
      assert b[1..] == [];
      assert b == [n];
    } else {
      var rest := b[1..];
      TailOf128(b);
      ShortestIsVarint(rest, GroupSum(rest));
      PositiveSum(rest);
      LowGroup(b[0], GroupSum(rest), n);
      assert b == [b[0]] + rest;
    }
  }

  lemma TailOf128(b: Bytes)
    requires |b| > 1 && Base128(b, GroupSum(b))
    ensures Base128(b[1..], GroupSum(b[1..])) && b[1..][|b| - 2] == b[|b| - 1] && b[0] >= 128
  {
    var rest := b[1..];
    assert forall i :: 0 <= i < |rest| ==> rest[i] == b[i + 1];
  }

  lemma LowGroup(x: Byte, high: nat, n: nat)
    requires x >= 128 && high > 0 && n == x % 128 + 128 * high
    ensures n >= 128 && x == 128 + n % 128 && n / 128 == high
  {
  }

  lemma {:induction false} PositiveSum(b: Bytes)
    requires b != [] && 0 < b[|b| - 1] < 128
    ensures GroupSum(b) > 0
  {
    if |b| > 1 {
      PositiveSum(b[1..]);
    }
  }

  // ----- reading any spelling

  lemma {:induction false} ReadBase128(b: Bytes, max: nat, rest: Bytes)
    requires Base128(b, GroupSum(b))
    ensures |b| <= max ==> ReadVarint(b + rest, max) == Got(GroupSum(b), rest)
    ensures |b| > max ==> ReadVarint(b + rest, max).Fail?
    decreases |b|
  {
    assert (b + rest)[1..] == b[1..] + rest;
    if |b| == 1 {
      assert b[1..] == [] && [] + rest == rest;
    } else if max > 0 {
      TailOf128(b);
      ReadBase128(b[1..], max - 1, rest);
      assert b[0] % 128 == b[0] - 128;
    }
  }

  /** Any spelling of at most five bytes is read as its low 32 bits, of at most ten as its low 64; a longer one is refused. */
  lemma ReadsSpelling(b: Bytes, n: nat, rest: Bytes)
    requires Base128(b, n)
    ensures if |b| <= 5 then Read32(b + rest) == Got(n % 0x1_0000_0000, rest) else Read32(b + rest).Fail?
    ensures if |b| <= 10 then Read64(b + rest) == Got(n % 0x1_0000_0000_0000_0000, rest) else Read64(b + rest).Fail?
  {
    ReadBase128(b, 5, rest);
    ReadBase128(b, 10, rest);
  }

  // ----- length-delimited byte strings

  function Delimited(b: Bytes): (r: Bytes)
    ensures |r| >= |b|
  {
    Varint(|b|) + b
  }

  /** The length-delimited payload at the front of b. */
  function ReadDelimited(b: Bytes): (r: Parsed<Bytes>)
    ensures |r.rest| <= |b| && (r.Got? ==> |r.value| + |r.rest| < |b| && |r.value| < TWO32)
  {
    match Read32(b)
    case Fail(rest) => Fail(rest)
    case Got(n, rest) => if |rest| < n then Fail(rest) else Got(rest[..n], rest[n..])
  }

  lemma DelimitedRoundTrip(p: Bytes, rest: Bytes)
    requires |p| < TWO32
    ensures ReadDelimited(Delimited(p) + rest) == Got(p, rest)
  {
    assert Delimited(p) + rest == Varint(|p|) + (p + rest);
    Read32RoundTrip(|p|, p + rest);
  }

  /** A length and that many bytes. */
  ghost predicate SpellsLength(body: Bytes, b: Bytes) {
    |body| <= |b| && b[|b| - |body|..] == body && Base128(b[..|b| - |body|], |body|)
  }

  lemma CutAt(a: Bytes, b: Bytes)
    ensures (a + b)[..|a|] == a && (a + b)[|a|..] == b
  {
  }

  lemma LengthIsSpelled(body: Bytes)
    ensures SpellsLength(body, Delimited(body))
  {
    VarintIsBase128(|body|);
    CutAt(Varint(|body|), body);
  }

  // ----- exactly what is read

  /** What was read was spelled. */
  lemma {:induction false} ReadIsSpelled(b: Bytes, max: nat) returns (n: nat)
    requires ReadVarint(b, max).Got?
    ensures 1 <= n <= max && n <= |b| && Base128(b[..n], ReadVarint(b, max).value) && ReadVarint(b, max).rest == b[n..]
    decreases max
  {
    if b[0] < 128 {
      n := 1;
      assert b[..1][1..] == [];
    } else {
      var m := ReadIsSpelled(b[1..], max - 1);
      n := m + 1;
      LongerSpelling(b, m, ReadVarint(b[1..], max - 1).value);
    }
  }

  lemma LongerSpelling(b: Bytes, m: nat, v: nat)
    requires b != [] && b[0] >= 128 && m < |b| && Base128(b[1..][..m], v)
    ensures Base128(b[..m + 1], b[0] - 128 + 128 * v) && b[1..][m..] == b[m + 1..]
  {
    var c, rest := b[..m + 1], b[1..][..m];
    assert c[1..] == rest;
    forall i | 0 <= i < |c| - 1
      ensures c[i] >= 128
    {
      assert i > 0 ==> c[i] == rest[i - 1];
    }
    assert c[|c| - 1] == rest[|rest| - 1];
    assert b[0] % 128 == b[0] - 128;
  }

  /** b is a number in at most max bytes, of which the low bits count, and the rest. */
  ghost predicate TakesNumber(b: Bytes, max: nat, modulus: nat, v: nat, rest: Bytes)
    requires modulus > 0
  {
    exists n {:trigger b[..n]} :: 1 <= n <= max && n <= |b| && Base128(b[..n], GroupSum(b[..n])) && v == GroupSum(b[..n]) % modulus && b[n..] == rest
  }

  lemma Number32Iff(b: Bytes, v: nat, rest: Bytes)
    ensures Read32(b) == Got(v, rest) <==> TakesNumber(b, 5, 0x1_0000_0000, v, rest)
  {
    if Read32(b) == Got(v, rest) {
      var n := ReadIsSpelled(b, 5);
    }
    if TakesNumber(b, 5, 0x1_0000_0000, v, rest) {
      var n :| 1 <= n <= 5 && n <= |b| && Base128(b[..n], GroupSum(b[..n])) && v == GroupSum(b[..n]) % 0x1_0000_0000 && b[n..] == rest;
      assert b[..n] + b[n..] == b;
      ReadsSpelling(b[..n], GroupSum(b[..n]), b[n..]);
    }
  }

  lemma Number64Iff(b: Bytes, v: nat, rest: Bytes)
    ensures Read64(b) == Got(v, rest) <==> TakesNumber(b, 10, 0x1_0000_0000_0000_0000, v, rest)
  {
    if Read64(b) == Got(v, rest) {
      var n := ReadIsSpelled(b, 10);
    }
    if TakesNumber(b, 10, 0x1_0000_0000_0000_0000, v, rest) {
      var n :| 1 <= n <= 10 && n <= |b| && Base128(b[..n], GroupSum(b[..n])) && v == GroupSum(b[..n]) % 0x1_0000_0000_0000_0000 && b[n..] == rest;
      assert b[..n] + b[n..] == b;
      ReadsSpelling(b[..n], GroupSum(b[..n]), b[n..]);
    }
  }

  /** b is a length in one to five bytes, of which the low 32 bits count, that many bytes, and the rest. */
  ghost predicate TakesString(b: Bytes, body: Bytes, rest: Bytes) { TakesNumber(b, 5, 0x1_0000_0000, |body|, body + rest) }

  lemma DelimitedIff(b: Bytes, body: Bytes, rest: Bytes)
    ensures ReadDelimited(b) == Got(body, rest) <==> TakesString(b, body, rest)
  {
    Number32Iff(b, |body|, body + rest);
    CutAt(body, rest);
    if ReadDelimited(b) == Got(body, rest) {
      assert Read32(b).rest == body + rest;
    }
  }
}
