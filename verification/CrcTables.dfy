/** The table form of the checksum: four bytes at a time, against the division bit by bit. */
module CrcTables {
  import opened Keys
  import opened Crc32c
  import opened Coding

  // ----- exclusive or on words

  function Mix(a: Word, b: Word): (r: Word)
    ensures r == Xor(a, b)
  {
    WordSize();
    XorBound(a, b, 32);
    Xor(a, b)
  }

  lemma {:induction false} XorAssociates(a: nat, b: nat, c: nat)
    ensures Xor(Xor(a, b), c) == Xor(a, Xor(b, c))
    decreases a + b + c
  {
    if a > 0 && b > 0 && c > 0 {
      XorHalf(a, b);
      XorHalf(b, c);
      XorHalf(Xor(a, b), c);
      XorHalf(a, Xor(b, c));
      XorAssociates(a / 2, b / 2, c / 2);
      SameBits(a, b, c, Xor(a, b), Xor(b, c), Xor(Xor(a, b), c), Xor(a, Xor(b, c)));
    }
  }

  lemma SameBits(a: nat, b: nat, c: nat, ab: nat, bc: nat, l: nat, r: nat)
    requires ab % 2 == (a + b) % 2 && bc % 2 == (b + c) % 2 && l % 2 == (ab + c) % 2 && r % 2 == (a + bc) % 2 && l / 2 == r / 2
    ensures l == r
  {
  }

  lemma {:induction false} XorCancels(a: nat)
    ensures Xor(a, a) == 0
  {
    if a > 0 {
      XorCancels(a / 2);
    }
  }

  /** a, moved k bits to the left. */
  function Left(a: nat, k: nat): (r: nat) { if k == 0 then a else 2 * Left(a, k - 1) }

  lemma LeftByte(a: nat)
    ensures Left(a, 8) == 256 * a && Pow2(8) == 256
  {
    assert Left(a, 1) == 2 * a && Pow2(1) == 2;
    assert Left(a, 2) == 4 * a && Pow2(2) == 4;
    assert Left(a, 4) == 16 * a && Pow2(4) == 16;
    assert Left(a, 6) == 64 * a && Pow2(6) == 64;
  }

  /** Low bits and the rest do not mix. */
  lemma {:induction false} XorLow(a: nat, r: nat, s: nat, k: nat)
    requires r < Pow2(k) && s < Pow2(k)
    ensures Xor(Left(a, k) + r, s) == Left(a, k) + Xor(r, s)
  {
    if k > 0 {
      var m, x := Left(a, k - 1), Left(a, k) + r;
      Doubled(m, r, x);
      XorHalf(x, s);
      XorHalf(r, s);
      XorLow(a, r / 2, s / 2, k - 1);
      SameHalves(m, r, s, x, Xor(x, s), Xor(r, s));
    }
  }

  lemma Doubled(m: nat, r: nat, x: nat)
    requires x == 2 * m + r
    ensures x / 2 == m + r / 2
  {
  }

  lemma SameHalves(m: nat, r: nat, s: nat, x: nat, xs: nat, rs: nat)
    requires x == 2 * m + r && xs % 2 == (x + s) % 2 && rs % 2 == (r + s) % 2 && xs / 2 == m + rs / 2
    ensures xs == 2 * m + rs
  {
  }

  /** The four words of two sums, regrouped. */
  lemma Regroup(a: Word, b: Word, c: Word, d: Word)
    ensures Xor(Xor(a, b), Xor(c, d)) == Xor(Xor(a, c), Xor(b, d))
  {
    XorAssociates(a, b, Xor(c, d));
    XorAssociates(b, c, d);
    XorCommutes(b, c);
    XorAssociates(c, b, d);
    XorAssociates(a, c, Xor(b, d));
  }

  // ----- the division is linear

  lemma BitStepLinear(x: Word, y: Word)
    ensures BitStep(Mix(x, y)) == Mix(BitStep(x), BitStep(y))
  {
    XorHalf(x, y);
    TakenMixes(x, y, Mix(x, y));
    Regroup(x / 2, y / 2, Taken(x), Taken(y));
    BitStepTakes(x);
    BitStepTakes(y);
    BitStepTakes(Mix(x, y));
  }

  /** What a step subtracts after the shift. */
  function Taken(x: Word): Word { if x % 2 == 1 then POLYNOMIAL else 0 }

  lemma TakenMixes(x: Word, y: Word, z: Word)
    requires z % 2 == (x + y) % 2
    ensures Taken(z) == Xor(Taken(x), Taken(y))
  {
    Picked(POLYNOMIAL, x % 2 == 1, y % 2 == 1);
  }

  lemma Picked(p: nat, a: bool, b: bool)
    ensures Xor(if a then p else 0, if b then p else 0) == if a != b then p else 0
  {
    XorCancels(p);
  }

  lemma BitStepTakes(x: Word)
    ensures BitStep(x) == Xor(x / 2, Taken(x))
  {
  }

  lemma {:induction false} BitStepsLinear(x: Word, y: Word, n: nat)
    ensures BitSteps(Mix(x, y), n) == Mix(BitSteps(x, n), BitSteps(y, n))
  {
    if n > 0 {
      BitStepsLinear(x, y, n - 1);
      BitStepLinear(BitSteps(x, n - 1), BitSteps(y, n - 1));
    }
  }

  lemma {:induction false} BitStepsAdd(x: Word, m: nat, n: nat)
    ensures BitSteps(BitSteps(x, m), n) == BitSteps(x, m + n)
  {
    if n > 0 {
      BitStepsAdd(x, m, n - 1);
    }
  }

  /** Zero bits shift out. */
  lemma {:induction false} BitStepsShift(x: Word, n: nat, y: Word)
    requires x == Left(y, n)
    ensures BitSteps(x, n) == y
  {
    if n > 0 {
      var h: Word := Left(y, n - 1);
      BitStepsShift(h, n - 1, y);
      assert BitSteps(x, 1) == BitStep(BitSteps(x, 0)) == h;
      BitStepsAdd(x, 1, n - 1);
    }
  }

  // ----- the tables

  /** table0_ to table3_: what is left of byte i after it has moved k + 1 bytes. */
  function Entry(k: nat, i: Byte): Word { BitSteps(i, 8 * (k + 1)) }

  /** table0_[128] is the polynomial itself. */
  lemma PolynomialEntry()
    ensures Entry(0, 128) == 0x82f63b78
  {
    BitStepsShift(128, 7, 1);
    BitStepsAdd(128, 7, 1);
    BitStepTakes(1);
  }

  /** A byte and the rest of its word. */
  lemma Peel(c: Word, n: nat)
    requires n >= 8
    ensures BitSteps(c, n) == Mix(BitSteps(c % 256, n), BitSteps(c / 256, n - 8))
  {
    var low, high: Word := c % 256, 256 * (c / 256);
    LeftByte(c / 256);
    XorLow(c / 256, 0, low, 8);
    XorCommutes(high, low);
    assert c == Mix(low, high);
    BitStepsLinear(low, high, n);
    BitStepsShift(high, 8, c / 256);
    BitStepsAdd(high, 8, n - 8);
  }

  /** STEP1 */
  function Step1(l: Word, b: Byte): Word {
    XorBytes(l % 256, b);
    Mix(Entry(0, Xor(l % 256, b)), l / 256)
  }

  lemma XorBytes(a: Byte, b: Byte)
    ensures Xor(a, b) < 256
  {
    LeftByte(0);
    XorBound(a, b, 8);
  }

  lemma Step1IsByteStep(l: Word, b: Byte)
    ensures Step1(l, b) == ByteStep(l, b)
  {
    var c := Mix(l, b);
    LeftByte(l / 256);
    XorBytes(l % 256, b);
    XorLow(l / 256, l % 256, b, 8);
    Quotient(l / 256, Xor(l % 256, b), c);
    Peel(c, 8);
  }

  lemma Quotient(h: nat, low: nat, c: nat)
    requires low < 256 && c == 256 * h + low
    ensures c / 256 == h && c % 256 == low
  {
  }

  /** STEP4 on the four bytes of a word, little endian. */
  function Step4(l: Word, w: Word): Word {
    var c := Mix(l, w);
    Mix(Mix(Mix(Entry(3, c % 256), Entry(2, c / 0x100 % 256)), Entry(1, c / 0x1_0000 % 256)), Entry(0, c / 0x100_0000))
  }

  lemma Step4IsDivision(l: Word, w: Word)
    ensures Step4(l, w) == BitSteps(Mix(l, w), 32)
  {
    var c := Mix(l, w);
    var c1, c2, c3: Word := c / 0x100, c / 0x1_0000, c / 0x100_0000;
    Shifts(c);
    Peel(c, 32);
    Peel(c1, 24);
    Peel(c2, 16);
    LeftToRight(Entry(3, c % 256), Entry(2, c1 % 256), Entry(1, c2 % 256), Entry(0, c3));
  }

  lemma Shifts(c: nat)
    ensures c / 0x100 / 256 == c / 0x1_0000 && c / 0x1_0000 / 256 == c / 0x100_0000
  {
  }

  lemma LeftToRight(a: Word, b: Word, c: Word, d: Word)
    ensures Mix(Mix(Mix(a, b), c), d) == Mix(a, Mix(b, Mix(c, d)))
  {
    XorAssociates(Xor(a, b), c, d);
    XorAssociates(a, b, Xor(c, d));
  }

  /** A whole word can be taken in at once. */
  lemma {:induction false} FoldIsDivision(l: Word, bs: Bytes, w: Word)
    requires |bs| <= 4 && w == Coding.Unfixed(bs)
    ensures Fold(l, bs) == BitSteps(Mix(l, w), 8 * |bs|)
    decreases |bs|
  {
    if bs != [] {
      var b, rest, w': Word := bs[0], bs[1..], w / 256;
      TakesOne(l, b, w, w');
      FoldComposes(l, [b], rest);
      assert [b] + rest == bs;
      FoldOne(l, b);
      FoldIsDivision(ByteStep(l, b), rest, w');
      BitStepsAdd(Mix(l, w), 8, 8 * |rest|);
    }
  }

  lemma TakesOne(l: Word, b: Byte, w: Word, w': Word)
    requires w == b + 256 * w'
    ensures BitSteps(Mix(l, w), 8) == Mix(ByteStep(l, b), w')
  {
    var high: Word := 256 * w';
    LeftByte(w');
    XorLow(w', 0, b, 8);
    XorCommutes(high, b);
    assert w == Mix(b, high);
    XorAssociates(l, b, high);
    BitStepsLinear(Mix(l, b), high, 8);
    BitStepsShift(high, 8, w');
  }

  lemma Step4IsFold(l: Word, bs: Bytes, w: Word)
    requires |bs| == 4 && w == Coding.Unfixed(bs)
    ensures Step4(l, w) == Fold(l, bs)
  {
    FoldIsDivision(l, bs, w);
    Step4IsDivision(l, w);
  }

  // ----- Extend

  lemma FoldMore(l: Word, data: Bytes, p: nat, n: nat)
    requires p + n <= |data|
    ensures Fold(Fold(l, data[..p]), data[p..p + n]) == Fold(l, data[..p + n])
  {
    assert data[..p] + data[p..p + n] == data[..p + n];
    FoldComposes(l, data[..p], data[p..p + n]);
  }

  /** The bytes from p to end, one at a time. */
  method OneByOne(data: Bytes, start: Word, l0: Word, p: nat, end: nat) returns (l: Word)
    requires p <= end <= |data| && l0 == Fold(start, data[..p])
    ensures l == Fold(start, data[..end])
  {
    l := l0;
    for i := p to end
      invariant l == Fold(start, data[..i])
    {
      Step1IsByteStep(l, data[i]);
      FoldOne(l, data[i]);
      FoldMore(start, data, i, 1);
      assert data[i..i + 1] == [data[i]];
      l := Step1(l, data[i]);
    }
  }

  /** The four bytes at p, loaded as one word. */
  method OneWord(data: Bytes, start: Word, l0: Word, p: nat) returns (l: Word)
    requires p + 4 <= |data| && l0 == Fold(start, data[..p])
    ensures l == Fold(start, data[..p + 4])
  {
    var w := DecodeFixed32(data[p..]);
    assert data[p..][..4] == data[p..p + 4];
    Step4IsFold(l0, data[p..p + 4], w);
    FoldMore(start, data, p, 4);
    l := Step4(l0, w);
  }

  /** crc32c::Extend for a string whose address is `address`: bytes up to the next multiple of four, then four words
      or one at a time, then the bytes that are left. */
  method ExtendByTables(crc: Word, data: Bytes, address: nat) returns (r: Word)
    ensures r == Extend(crc, data)
  {
    var start: Word := Mix(crc, TWO_32 - 1);
    Complement(crc);
    assert data[..0] == [];
    var l, p := start, 0;
    var x := (address + 3) / 4 * 4 - address;
    if x <= |data| {
      l := OneByOne(data, start, l, 0, x);
      p := x;
    }
    while |data| - p >= 16
      invariant 0 <= p <= |data| && l == Fold(start, data[..p])
    {
      l := OneWord(data, start, l, p);
      l := OneWord(data, start, l, p + 4);
      l := OneWord(data, start, l, p + 8);
      l := OneWord(data, start, l, p + 12);
      p := p + 16;
    }
    while |data| - p >= 4
      invariant 0 <= p <= |data| && l == Fold(start, data[..p])
    {
      l := OneWord(data, start, l, p);
      p := p + 4;
    }
    l := OneByOne(data, start, l, p, |data|);
    assert data[..|data|] == data;
    Complement(l);
    r := Mix(l, TWO_32 - 1);
  }

  lemma Complement(c: Word)
    ensures Xor(c, TWO_32 - 1) == TWO_32 - 1 - c
  {
    WordSize();
    Flipped(c, 32);
  }

  lemma {:induction false} Flipped(c: nat, k: nat)
    requires c < Pow2(k)
    ensures Xor(c, Pow2(k) - 1) == Pow2(k) - 1 - c
  {
    if k > 0 {
      XorStep(c, Pow2(k) - 1);
      Flipped(c / 2, k - 1);
      FlipBit(c, Pow2(k - 1));
    }
  }

  lemma FlipBit(c: nat, m: nat)
    requires c < 2 * m
    ensures (2 * m - 1) / 2 == m - 1 && (c + (2 * m - 1)) % 2 + 2 * (m - 1 - c / 2) == 2 * m - 1 - c
  {
  }
}
