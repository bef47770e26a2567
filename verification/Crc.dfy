/** The cyclic redundancy check of the motion-controller frames.

    The program looks a precomputed table up once per byte.  The reference definition
    here is the shift register of section 2 of ITU-T V.41: it takes one message bit at
    a time, most significant bit first, and divides by x^16 + x^12 + x^5 + 1.  The two
    are proved equal, and the error-detecting power of the check is proved on the
    reference definition.
  */
module Crc {
  import opened BitConverter
  import opened BitStrings
  import opened Register
  import opened ShiftRegister

  // ---------- the precomputed table ----------

  const ROW_0: seq<bv16> := [0, 4129, 8258, 12387, 16516, 20645, 24774, 28903, 33032, 37161, 41290, 45419, 49548, 53677, 57806, 61935]
  const ROW_1: seq<bv16> := [4657, 528, 12915, 8786, 21173, 17044, 29431, 25302, 37689, 33560, 45947, 41818, 54205, 50076, 62463, 58334]
  const ROW_2: seq<bv16> := [9314, 13379, 1056, 5121, 25830, 29895, 17572, 21637, 42346, 46411, 34088, 38153, 58862, 62927, 50604, 54669]
  const ROW_3: seq<bv16> := [13907, 9842, 5649, 1584, 30423, 26358, 22165, 18100, 46939, 42874, 38681, 34616, 63455, 59390, 55197, 51132]
  const ROW_4: seq<bv16> := [18628, 22757, 26758, 30887, 2112, 6241, 10242, 14371, 51660, 55789, 59790, 63919, 35144, 39273, 43274, 47403]
  const ROW_5: seq<bv16> := [23285, 19156, 31415, 27286, 6769, 2640, 14899, 10770, 56317, 52188, 64447, 60318, 39801, 35672, 47931, 43802]
  const ROW_6: seq<bv16> := [27814, 31879, 19684, 23749, 11298, 15363, 3168, 7233, 60846, 64911, 52716, 56781, 44330, 48395, 36200, 40265]
  const ROW_7: seq<bv16> := [32407, 28342, 24277, 20212, 15891, 11826, 7761, 3696, 65439, 61374, 57309, 53244, 48923, 44858, 40793, 36728]
  const ROW_8: seq<bv16> := [37256, 33193, 45514, 41451, 53516, 49453, 61774, 57711, 4224, 161, 12482, 8419, 20484, 16421, 28742, 24679]
  const ROW_9: seq<bv16> := [33721, 37784, 41979, 46042, 49981, 54044, 58239, 62302, 689, 4752, 8947, 13010, 16949, 21012, 25207, 29270]
  const ROW_10: seq<bv16> := [46570, 42443, 38312, 34185, 62830, 58703, 54572, 50445, 13538, 9411, 5280, 1153, 29798, 25671, 21540, 17413]
  const ROW_11: seq<bv16> := [42971, 47098, 34713, 38840, 59231, 63358, 50973, 55100, 9939, 14066, 1681, 5808, 26199, 30326, 17941, 22068]
  const ROW_12: seq<bv16> := [55628, 51565, 63758, 59695, 39368, 35305, 47498, 43435, 22596, 18533, 30726, 26663, 6336, 2273, 14466, 10403]
  const ROW_13: seq<bv16> := [52093, 56156, 60223, 64286, 35833, 39896, 43963, 48026, 19061, 23124, 27191, 31254, 2801, 6864, 10931, 14994]
  const ROW_14: seq<bv16> := [64814, 60687, 56684, 52557, 48554, 44427, 40424, 36297, 31782, 27655, 23652, 19525, 15522, 11395, 7392, 3265]
  const ROW_15: seq<bv16> := [61215, 65342, 53085, 57212, 44955, 49082, 36825, 40952, 28183, 32310, 20053, 24180, 11923, 16050, 3793, 7920]

  const CRC_TABLE: seq<bv16> :=
    ((ROW_0 + ROW_1 + ROW_2 + ROW_3) + (ROW_4 + ROW_5 + ROW_6 + ROW_7)) +
    ((ROW_8 + ROW_9 + ROW_10 + ROW_11) + (ROW_12 + ROW_13 + ROW_14 + ROW_15))

  const CRC_INIT: bv16 := 0xA2

  // ---------- the reference definition ----------

  /** The bits of a message, byte by byte, each byte's most significant bit first. */
  function Bits(m: seq<byte>): (r: seq<bool>)
    ensures |r| == 8 * |m|
  {
    if m == [] then [] else BitsOf(m[0], 8) + Bits(m[1..])
  }

  /** The register, preset to `CRC_INIT`, after all the bits of the message. */
  function Checksum(m: seq<byte>): bv16 {
    Feed(BitStep, CRC_INIT, Bits(m))
  }

  // ---------- the table drives the same register ----------

  function TopByte(c: bv16): bv8 {
    ((c >> 8) & 0xff) as bv8
  }

  function BottomByte(c: bv16): bv8 {
    (c & 0xff) as bv8
  }

  function Mask(k: nat): bv8
    requires k < 8
  {
    match k
    case 0 => 0x80
    case 1 => 0x40
    case 2 => 0x20
    case 3 => 0x10
    case 4 => 0x08
    case 5 => 0x04
    case 6 => 0x02
    case _ => 0x01
  }

  /** Bit k of a byte, counted from the most significant. */
  function BitAt(b: bv8, k: nat): bool
    requires k < 8
  {
    b & Mask(k) != 0
  }

  function ByteBits(b: bv8): (r: seq<bool>)
    ensures |r| == 8
  {
    seq(8, k requires 0 <= k < 8 => BitAt(b, k))
  }

  function Entry(i: bv8): bv16 {
    TableSize();
    CRC_TABLE[i as int]
  }

  /** What one round of the program's loop computes. */
  function TableStep(c: bv16, b: bv8): bv16 {
    Xor(Entry(TopByte(c) ^ b), c << 8)
  }

  /** The register after the eight bits of a byte, written out. */
  function ByteStep(c: bv16, b: bv8): bv16 {
    var c1 := BitStep(c, b & 0x80 != 0);
    var c2 := BitStep(c1, b & 0x40 != 0);
    var c3 := BitStep(c2, b & 0x20 != 0);
    var c4 := BitStep(c3, b & 0x10 != 0);
    var c5 := BitStep(c4, b & 0x08 != 0);
    var c6 := BitStep(c5, b & 0x04 != 0);
    var c7 := BitStep(c6, b & 0x02 != 0);
    BitStep(c7, b & 0x01 != 0)
  }

  lemma ByteStepIsFeed(c: bv16, b: bv8)
    ensures Feed(BitStep, c, ByteBits(b)) == ByteStep(c, b)
  {
    FeedEight(BitStep, c, ByteBits(b));
  }

  lemma TableSize()
    ensures |CRC_TABLE| == 256
  {}

  lemma TableRow0(i: bv8)
    requires i < 0x10
    ensures Entry(i) == ByteStep(0, i)
  {}

  lemma TableRow1(i: bv8)
    requires 0x10 <= i < 0x20
    ensures Entry(i) == ByteStep(0, i)
  {}

  lemma TableRow2(i: bv8)
    requires 0x20 <= i < 0x30
    ensures Entry(i) == ByteStep(0, i)
  {}

  lemma TableRow3(i: bv8)
    requires 0x30 <= i < 0x40
    ensures Entry(i) == ByteStep(0, i)
  {}

  lemma TableRow4(i: bv8)
    requires 0x40 <= i < 0x50
    ensures Entry(i) == ByteStep(0, i)
  {}

  lemma TableRow5(i: bv8)
    requires 0x50 <= i < 0x60
    ensures Entry(i) == ByteStep(0, i)
  {}

  lemma TableRow6(i: bv8)
    requires 0x60 <= i < 0x70
    ensures Entry(i) == ByteStep(0, i)
  {}

  lemma TableRow7(i: bv8)
    requires 0x70 <= i < 0x80
    ensures Entry(i) == ByteStep(0, i)
  {}

  lemma TableRow8(i: bv8)
    requires 0x80 <= i < 0x90
    ensures Entry(i) == ByteStep(0, i)
  {}

  lemma TableRow9(i: bv8)
    requires 0x90 <= i < 0xA0
    ensures Entry(i) == ByteStep(0, i)
  {}

  lemma TableRow10(i: bv8)
    requires 0xA0 <= i < 0xB0
    ensures Entry(i) == ByteStep(0, i)
  {}

  lemma TableRow11(i: bv8)
    requires 0xB0 <= i < 0xC0
    ensures Entry(i) == ByteStep(0, i)
  {}

  lemma TableRow12(i: bv8)
    requires 0xC0 <= i < 0xD0
    ensures Entry(i) == ByteStep(0, i)
  {}

  lemma TableRow13(i: bv8)
    requires 0xD0 <= i < 0xE0
    ensures Entry(i) == ByteStep(0, i)
  {}

  lemma TableRow14(i: bv8)
    requires 0xE0 <= i < 0xF0
    ensures Entry(i) == ByteStep(0, i)
  {}

  lemma TableRow15(i: bv8)
    requires 0xF0 <= i
    ensures Entry(i) == ByteStep(0, i)
  {}

  lemma TableUpperHalf(i: bv8)
    requires i < 0x80
    ensures Entry(i) == ByteStep(0, i)
  {
    hide ByteStep, Entry;
    if i < 0x10 {
      TableRow0(i);
    } else if i < 0x20 {
      TableRow1(i);
    } else if i < 0x30 {
      TableRow2(i);
    } else if i < 0x40 {
      TableRow3(i);
    } else if i < 0x50 {
      TableRow4(i);
    } else if i < 0x60 {
      TableRow5(i);
    } else if i < 0x70 {
      TableRow6(i);
    } else {
      TableRow7(i);
    }
  }

  lemma TableLowerHalf(i: bv8)
    requires 0x80 <= i
    ensures Entry(i) == ByteStep(0, i)
  {
    hide ByteStep, Entry;
    if i < 0x90 {
      TableRow8(i);
    } else if i < 0xA0 {
      TableRow9(i);
    } else if i < 0xB0 {
      TableRow10(i);
    } else if i < 0xC0 {
      TableRow11(i);
    } else if i < 0xD0 {
      TableRow12(i);
    } else if i < 0xE0 {
      TableRow13(i);
    } else if i < 0xF0 {
      TableRow14(i);
    } else {
      TableRow15(i);
    }
  }

  /** Entry i of the table is what the cleared register holds after byte i. */
  lemma TableEntry(i: bv8)
    ensures Entry(i) == Feed(BitStep, 0, ByteBits(i))
  {
    ByteStepIsFeed(0, i);
    hide ByteStep, Entry;
    if i < 0x80 {
      TableUpperHalf(i);
    } else {
      TableLowerHalf(i);
    }
  }

  /** A register that takes the bit it shifts out only shifts; that bit is one of its top byte. */
  lemma OwnStep0(c: bv16)
    ensures BitStep(c, BitAt(TopByte(c), 0)) == c << 1
  {}

  lemma OwnStep1(c: bv16)
    ensures BitStep(c << 1, BitAt(TopByte(c), 1)) == c << 2
  {}

  lemma OwnStep2(c: bv16)
    ensures BitStep(c << 2, BitAt(TopByte(c), 2)) == c << 3
  {}

  lemma OwnStep3(c: bv16)
    ensures BitStep(c << 3, BitAt(TopByte(c), 3)) == c << 4
  {}

  lemma OwnStep4(c: bv16)
    ensures BitStep(c << 4, BitAt(TopByte(c), 4)) == c << 5
  {}

  lemma OwnStep5(c: bv16)
    ensures BitStep(c << 5, BitAt(TopByte(c), 5)) == c << 6
  {}

  lemma OwnStep6(c: bv16)
    ensures BitStep(c << 6, BitAt(TopByte(c), 6)) == c << 7
  {}

  lemma OwnStep7(c: bv16)
    ensures BitStep(c << 7, BitAt(TopByte(c), 7)) == c << 8
  {}

  /** Fed its own top byte the register never adds the generator. */
  lemma OwnTopByte(c: bv16)
    ensures Feed(BitStep, c, ByteBits(TopByte(c))) == c << 8
  {
    hide BitStep, BitAt, TopByte, Feed;
    FeedEight(BitStep, c, ByteBits(TopByte(c)));
    OwnStep0(c);
    OwnStep1(c);
    OwnStep2(c);
    OwnStep3(c);
    OwnStep4(c);
    OwnStep5(c);
    OwnStep6(c);
    OwnStep7(c);
  }

  lemma MaskedXor(a: bv8, b: bv8, m: bv8)
    requires m & (m - 1) == 0
    ensures ((a ^ b) & m != 0) == ((a & m != 0) != (b & m != 0))
  {}

  lemma MaskIsOneBit(k: nat)
    requires k < 8
    ensures Mask(k) & (Mask(k) - 1) == 0
  {}

  lemma ByteBitsOfXor(a: bv8, b: bv8)
    ensures ByteBits(a ^ b) == Difference(ByteBits(a), ByteBits(b))
  {
    forall k | 0 <= k < 8 ensures BitAt(a ^ b, k) == (BitAt(a, k) != BitAt(b, k)) {
      MaskIsOneBit(k);
      MaskedXor(a, b, Mask(k));
    }
  }

  lemma CrcIsLinear(c: bv16, d: bv16, m: seq<bool>, n: seq<bool>)
    requires |m| == |n|
    ensures Feed(BitStep, Xor(c, d), Difference(m, n)) == Xor(Feed(BitStep, c, m), Feed(BitStep, d, n))
  {
    forall c, d, x, y ensures BitStep(Xor(c, d), x != y) == Xor(BitStep(c, x), BitStep(d, y)) {
      BitStepIsLinear(c, d, x, y);
    }
    FeedIsLinear(BitStep, Xor, c, d, m, n);
  }

  lemma XorCancels(h: bv8, b: bv8)
    ensures h ^ (h ^ b) == b
  {}

  lemma EightBitsSplit(c: bv16, h: bv8, b: bv8)
    requires h == TopByte(c)
    ensures Feed(BitStep, c, ByteBits(b)) == Xor(Feed(BitStep, 0, ByteBits(h ^ b)), c << 8)
  {
    OwnTopByte(c);
    ByteBitsOfXor(h, h ^ b);
    XorCancels(h, b);
    XorZero(c);
    CrcIsLinear(c, 0, ByteBits(h), ByteBits(h ^ b));
    XorCommutes(c << 8, Feed(BitStep, 0, ByteBits(h ^ b)));
  }

  /** One table lookup moves the register exactly as the eight bits of the byte do. */
  lemma LookupIsEightBits(c: bv16, b: bv8)
    ensures TableStep(c, b) == Feed(BitStep, c, ByteBits(b))
  {
    EightBitsSplit(c, TopByte(c), b);
    TableEntry(TopByte(c) ^ b);
  }

  // ---------- the program's loop ----------

  /** The bit vector with the given bits. */
  function FromBits(e: seq<bool>): bv8
    requires |e| == 8
  {
    (if e[0] then 0x80 else 0) | (if e[1] then 0x40 else 0) | (if e[2] then 0x20 else 0) | (if e[3] then 0x10 else 0) |
    (if e[4] then 0x08 else 0) | (if e[5] then 0x04 else 0) | (if e[6] then 0x02 else 0) | (if e[7] then 0x01 else 0)
  }

  lemma FromBitsAt(e: seq<bool>, k: nat)
    requires |e| == 8 && k < 8
    ensures BitAt(FromBits(e), k) == e[k]
  {}

  /** A byte as the bit vector the exclusive-or works on. */
  function Pattern(b: byte): bv8 {
    FromBits(BitsOf(b, 8))
  }

  lemma BitsOfPattern(b: byte)
    ensures ByteBits(Pattern(b)) == BitsOf(b, 8)
  {
    forall k | 0 <= k < 8 ensures BitAt(Pattern(b), k) == BitsOf(b, 8)[k] {
      FromBitsAt(BitsOf(b, 8), k);
    }
  }

  /** The register read as an unsigned integer. */
  function WordValue(c: bv16): (r: nat)
    ensures r < 0x1_0000
  {
    PowersOfTwo();
    0x100 * Value(ByteBits(TopByte(c))) + Value(ByteBits(BottomByte(c)))
  }

  function Crc16(m: seq<byte>): (r: nat)
    ensures r < 0x1_0000
  {
    WordValue(Checksum(m))
  }

  lemma TopOfInit()
    ensures TopByte(CRC_INIT) == 0 && BottomByte(CRC_INIT) == 0xA2
  {}

  lemma BitsOfZero()
    ensures ByteBits(0) == [false, false, false, false, false, false, false, false]
  {}

  lemma BitsOfA2()
    ensures ByteBits(0xA2) == [true, false, true, false, false, false, true, false]
  {}

  lemma ValueSnoc(e: seq<bool>, b: bool)
    ensures Value(e + [b]) == 2 * Value(e) + if b then 1 else 0
  {
    assert (e + [b])[..|e|] == e;
  }

  function Nibble(a: bool, b: bool, c: bool, d: bool): nat {
    (if a then 8 else 0) + (if b then 4 else 0) + (if c then 2 else 0) + if d then 1 else 0
  }

  lemma ValueOfFour(e: seq<bool>, a: bool, b: bool, c: bool, d: bool)
    ensures Value(e + [a, b, c, d]) ==
      16 * Value(e) + Nibble(a, b, c, d)
  {
    hide Value;
    ValueSnoc(e, a);
    ValueSnoc(e + [a], b);
    assert e + [a] + [b] == e + [a, b];
    ValueSnoc(e + [a, b], c);
    assert e + [a, b] + [c] == e + [a, b, c];
    ValueSnoc(e + [a, b, c], d);
    assert e + [a, b, c] + [d] == e + [a, b, c, d];
  }

  lemma ValueOfNothing()
    ensures Value([]) == 0
  {}

  lemma ValueOfEight(a: bool, b: bool, c: bool, d: bool, e: bool, f: bool, g: bool, h: bool)
    ensures Value([a, b, c, d, e, f, g, h]) == 16 * Nibble(a, b, c, d) + Nibble(e, f, g, h)
  {
    hide Value;
    var none: seq<bool> := [];
    ValueOfNothing();
    ValueOfFour(none, a, b, c, d);
    assert none + [a, b, c, d] == [a, b, c, d];
    ValueOfFour([a, b, c, d], e, f, g, h);
    assert [a, b, c, d] + [e, f, g, h] == [a, b, c, d, e, f, g, h];
  }

  lemma ChecksumOfNothing()
    ensures Checksum([]) == CRC_INIT
  {
    hide BitStep;
  }

  /** The checksum of nothing. */
  lemma CrcOfNothing()
    ensures Crc16([]) == 0xA2
  {
    ChecksumOfNothing();
    hide Checksum, TopByte, BottomByte, ByteBits, Value, CRC_INIT;
    TopOfInit();
    BitsOfZero();
    BitsOfA2();
    ValueOfEight(false, false, false, false, false, false, false, false);
    ValueOfEight(true, false, true, false, false, false, true, false);
  }

  lemma {:induction false} BitsAppend(m: seq<byte>, n: seq<byte>)
    ensures Bits(m + n) == Bits(m) + Bits(n)
  {
    if m == [] {
      assert m + n == n;
    } else {
      assert (m + n)[1..] == m[1..] + n;
      BitsAppend(m[1..], n);
    }
  }

  lemma FeedOneMore(c: bv16, m: seq<byte>, b: byte)
    ensures Feed(BitStep, c, Bits(m + [b])) == Feed(BitStep, Feed(BitStep, c, Bits(m)), BitsOf(b, 8))
  {
    BitsAppend(m, [b]);
    assert Bits([b]) == BitsOf(b, 8);
    FeedAppend(BitStep, c, Bits(m), BitsOf(b, 8));
  }

  /** One round of the program's loop: a single table lookup does the work of the eight
      bits of the byte. */
  method LookUp(usCrc: bv16, b: byte) returns (r: bv16)
    ensures r == Feed(BitStep, usCrc, BitsOf(b, 8))
  {
    LookupIsEightBits(usCrc, Pattern(b));
    BitsOfPattern(b);
    var index := TopByte(usCrc) ^ Pattern(b);
    r := Xor(Entry(index), usCrc << 8);
  }

  /** The program's checksum of the first `useCount` bytes, with the 16 bits it masks its
      accumulator to as the width of the register.  The caller keeps `useCount` within the
      buffer; the program would otherwise leave with an index error. */
  method MakeCrc(buffer: array<byte>, useCount: int) returns (crc: nat)
    requires useCount <= buffer.Length
    ensures crc == Crc16(buffer[..if useCount < 0 then 0 else useCount])
  {
    var usCrc := CRC_INIT;
    var left, i := useCount, 0;
    while left > 0
      invariant 0 <= i <= buffer.Length
      invariant if useCount < 0 then i == 0 && left == useCount else 0 <= left == useCount - i
      invariant usCrc == Checksum(buffer[..i])
    {
      left := left - 1;
      FeedOneMore(CRC_INIT, buffer[..i], buffer[i]);
      assert buffer[..i + 1] == buffer[..i] + [buffer[i]];
      usCrc := LookUp(usCrc, buffer[i]);
      i := i + 1;
    }
    crc := WordValue(usCrc);
  }
}
