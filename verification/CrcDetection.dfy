/** Which changes of a message its checksum is sure to catch. */
module CrcDetection {
  import opened BitConverter
  import opened BitStrings
  import opened Crc
  import opened Register
  import opened ShiftRegister

  // ---------- bursts ----------

  lemma ShortBurst(w: seq<bool>)
    requires 0 < |w| <= 16 && w[0]
    ensures Feed(BitStep, 0, w) != 0
  {
    forall k, d, bit | 0 <= k < 16 && LowNonzero(k, d) ensures LowNonzero(k + 1, BitStep(d, bit)) {
      LowNonzeroAdvances(k, d, bit);
    }
    assert BitStep(0, true) == 0x1021 && LowNonzero(1, 0x1021);
    FeedAdvances(BitStep, LowNonzero, 16, 1, 0x1021, w[1..]);
  }

  /** Two registers that start equal differ by what the cleared register holds after the
      differences of their inputs. */
  lemma FeedsDiffer(c: bv16, m: seq<bool>, n: seq<bool>)
    requires |m| == |n|
    ensures Feed(BitStep, c, m) == Feed(BitStep, c, n) <==> Feed(BitStep, 0, Difference(m, n)) == 0
  {
    CrcIsLinear(c, c, m, n);
    XorIsZero(c, c);
    XorIsZero(Feed(BitStep, c, m), Feed(BitStep, c, n));
  }

  // ---------- from registers to the two bytes of the field ----------

  lemma WordFromBytes(c: bv16, d: bv16)
    requires TopByte(c) == TopByte(d) && BottomByte(c) == BottomByte(d)
    ensures c == d
  {}

  lemma ByteFromBits(a: bv8, b: bv8)
    requires ByteBits(a) == ByteBits(b)
    ensures a == b
  {
    assert a == FromBits(ByteBits(a)) by { RebuildByte(a); }
    assert b == FromBits(ByteBits(b)) by { RebuildByte(b); }
  }

  lemma RebuildByte(a: bv8)
    ensures FromBits(ByteBits(a)) == a
  {}

  lemma TwoDigitsUnique(a: nat, b: nat, c: nat, d: nat)
    requires b < 0x100 && d < 0x100 && 0x100 * a + b == 0x100 * c + d
    ensures a == c && b == d
  {}

  lemma ByteValue(a: bv8) returns (v: nat)
    ensures v == Value(ByteBits(a)) && v < 0x100
  {
    PowersOfTwo();
    v := Value(ByteBits(a));
  }

  lemma ByteValueInjective(a: bv8, b: bv8)
    requires Value(ByteBits(a)) == Value(ByteBits(b))
    ensures a == b
  {
    ValueInjective(ByteBits(a), ByteBits(b));
    ByteFromBits(a, b);
  }

  /** Different registers give different field values. */
  lemma WordValueInjective(c: bv16, d: bv16)
    requires WordValue(c) == WordValue(d)
    ensures c == d
  {
    var tc := ByteValue(TopByte(c));
    var td := ByteValue(TopByte(d));
    var bc := ByteValue(BottomByte(c));
    var bd := ByteValue(BottomByte(d));
    TwoDigitsUnique(tc, bc, td, bd);
    ByteValueInjective(TopByte(c), TopByte(d));
    ByteValueInjective(BottomByte(c), BottomByte(d));
    WordFromBytes(c, d);
  }

  // ---------- what a burst does to the checksum ----------

  /** The cleared register is not clear any more after a short burst and whatever zeros. */
  lemma BurstRemains(w: seq<bool>, i: nat, n: nat)
    requires Burst(w, i, n) && n <= 16
    ensures Feed(BitStep, 0, w) != 0
  {
    forall d ensures BitStep(d, false) == 0 <==> d == 0 {
      OnlyZeroStepsToZero(d);
    }
    hide BitStep;
    forall v: seq<bool> | 0 < |v| <= n && v[0] ensures Feed(BitStep, 0, v) != 0 {
      ShortBurst(v);
    }
    FeedOfBurst(BitStep, 0, w, i, n);
  }

  /** A change confined to sixteen consecutive bits always changes the checksum. */
  lemma DetectsBurst(m: seq<byte>, n: seq<byte>, i: nat, k: nat)
    requires |m| == |n| && k <= 16
    requires Burst(Difference(Bits(m), Bits(n)), i, k)
    ensures Crc16(m) != Crc16(n)
  {
    hide BitStep, Feed;
    BurstRemains(Difference(Bits(m), Bits(n)), i, k);
    FeedsDiffer(CRC_INIT, Bits(m), Bits(n));
    if Crc16(m) == Crc16(n) {
      WordValueInjective(Checksum(m), Checksum(n));
    }
  }

  lemma {:induction false} BitsInjective(x: seq<byte>, y: seq<byte>)
    requires |x| == |y| && Bits(x) == Bits(y)
    ensures x == y
  {
    if x != [] {
      PowersOfTwo();
      assert Bits(x)[..8] == BitsOf(x[0], 8) && Bits(y)[..8] == BitsOf(y[0], 8);
      ValueOfBitsOf(x[0], 8);
      ValueOfBitsOf(y[0], 8);
      assert Bits(x)[8..] == Bits(x[1..]) && Bits(y)[8..] == Bits(y[1..]);
      BitsInjective(x[1..], y[1..]);
    }
  }

  lemma BitsAround(p: seq<byte>, x: seq<byte>, q: seq<byte>)
    ensures Bits(p + x + q) == Bits(p) + Bits(x) + Bits(q)
  {
    BitsAppend(p + x, q);
    BitsAppend(p, x);
  }

  /** Replacing one byte, or two neighbouring bytes, by anything else always changes the
      checksum. */
  lemma DetectsTwoBytes(p: seq<byte>, x: seq<byte>, y: seq<byte>, q: seq<byte>)
    requires |x| == |y| <= 2 && x != y
    ensures Crc16(p + x + q) != Crc16(p + y + q)
  {
    BitsAround(p, x, q);
    BitsAround(p, y, q);
    if Bits(x) == Bits(y) {
      BitsInjective(x, y);
    }
    MiddleBurst(Bits(p), Bits(x), Bits(y), Bits(q));
    DetectsBurst(p + x + q, p + y + q, |Bits(p)|, 8 * |x|);
  }

  lemma EightBitsInjective(c: bv16, d: bv16, e: seq<bool>)
    requires Feed(BitStep, c, e) == Feed(BitStep, d, e)
    ensures c == d
  {
    CrcIsLinear(c, d, e, e);
    XorIsZero(c, d);
    XorIsZero(Feed(BitStep, c, e), Feed(BitStep, d, e));
    forall x ensures BitStep(x, false) == 0 <==> x == 0 {
      OnlyZeroStepsToZero(x);
    }
    if Xor(c, d) != 0 {
      FeedKeepsNonzero(BitStep, 0, Xor(c, d), Difference(e, e));
    }
  }

  lemma SameFeedSameBits(c: bv16, e: seq<bool>, f: seq<bool>)
    requires |e| == |f| <= 16 && Feed(BitStep, c, e) == Feed(BitStep, c, f)
    ensures e == f
  {
    hide BitStep, Feed, Difference, Burst;
    FeedsDiffer(c, e, f);
    if e != f {
      DifferenceIsBurst(e, f);
      BurstRemains(Difference(e, f), 0, |e|);
    }
  }

  lemma TableStepOfByte(c: bv16, a: byte)
    ensures TableStep(c, Pattern(a)) == Feed(BitStep, c, BitsOf(a, 8))
  {
    LookupIsEightBits(c, Pattern(a));
    BitsOfPattern(a);
  }

  /** A table step does not lose the register... */
  lemma StepInjectiveInRegister(c: bv16, d: bv16, a: byte)
    requires TableStep(c, Pattern(a)) == TableStep(d, Pattern(a))
    ensures c == d
  {
    TableStepOfByte(c, a);
    TableStepOfByte(d, a);
    EightBitsInjective(c, d, BitsOf(a, 8));
  }

  /** ...nor the byte. */
  lemma StepInjectiveInByte(c: bv16, a: byte, b: byte)
    requires TableStep(c, Pattern(a)) == TableStep(c, Pattern(b))
    ensures a == b
  {
    TableStepOfByte(c, a);
    TableStepOfByte(c, b);
    SameFeedSameBits(c, BitsOf(a, 8), BitsOf(b, 8));
    PowersOfTwo();
    BitsOfInjective(a, b, 8);
  }

  // ---------- odd numbers of changed bits ----------

  lemma ChecksumParity(m: seq<byte>)
    ensures Parity(Checksum(m)) == (Parity(CRC_INIT) != Odd(Bits(m)))
  {
    forall c, bit ensures Parity(BitStep(c, bit)) == (Parity(c) != bit) {
      StepFlipsParity(c, bit);
    }
    FeedFlipsParity(BitStep, Parity, CRC_INIT, Bits(m));
  }

  lemma ParityOfHalves(c: bv16)
    ensures LowParity(c >> 8) == ByteParity(TopByte(c))
    ensures LowParity(c) == ByteParity(BottomByte(c))
  {}

  function ByteParity(a: bv8): bool {
    (((a & 0x80 != 0) != (a & 0x40 != 0)) != ((a & 0x20 != 0) != (a & 0x10 != 0))) !=
    (((a & 0x08 != 0) != (a & 0x04 != 0)) != ((a & 0x02 != 0) != (a & 0x01 != 0)))
  }

  lemma ByteParityIsOdd(a: bv8)
    ensures ByteParity(a) == Odd(ByteBits(a))
  {
    OddOfEight(ByteBits(a));
  }

  lemma WordParity(c: bv16)
    ensures Parity(c) == (Odd(ByteBits(TopByte(c))) != Odd(ByteBits(BottomByte(c))))
  {
    ByteParityIsOdd(TopByte(c));
    ByteParityIsOdd(BottomByte(c));
    ParityOfHalves(c);
  }

  lemma FieldBits(c: bv16, low: byte, high: byte)
    requires WordValue(c) == low as int + 0x100 * (high as int)
    ensures BitsOf(high, 8) == ByteBits(TopByte(c)) && BitsOf(low, 8) == ByteBits(BottomByte(c))
  {
    var t := ByteValue(TopByte(c));
    var b := ByteValue(BottomByte(c));
    TwoDigitsUnique(t, b, high, low);
    BitsOfValue(ByteBits(TopByte(c)));
    BitsOfValue(ByteBits(BottomByte(c)));
  }

  lemma BitsOfTwo(low: byte, high: byte)
    ensures Bits([low, high]) == BitsOf(low, 8) + BitsOf(high, 8)
  {
    assert [low, high][1..] == [high];
    assert Bits([high]) == BitsOf(high, 8);
  }

  /** A message followed by its checksum, low byte first, always has the same parity, so
      no odd number of bit errors anywhere in the two can go unnoticed. */
  lemma DetectsOddErrors(m: seq<byte>, low: byte, high: byte)
    requires Crc16(m) == low as int + 0x100 * (high as int)
    ensures Odd(Bits(m + [low, high])) == Parity(CRC_INIT)
  {
    FieldBits(Checksum(m), low, high);
    BitsOfTwo(low, high);
    BitsAppend(m, [low, high]);
    OddAppend(Bits(m), Bits([low, high]));
    OddAppend(BitsOf(low, 8), BitsOf(high, 8));
    WordParity(Checksum(m));
    ChecksumParity(m);
  }
}
