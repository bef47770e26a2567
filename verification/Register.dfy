/** One step of the 16-bit register of section 2 of ITU-T V.41, with the generator
    x^16 + x^12 + x^5 + 1, and what every such step does to the register.
  */
module Register {
  /** The register takes one message bit: it shifts left, and the generator is added
      when the bit shifted out differs from the message bit. */
  function BitStep(c: bv16, bit: bool): bv16 {
    if (c & 0x8000 != 0) != bit then (c << 1) ^ 0x1021 else c << 1
  }

  lemma StepBothAdd(c: bv16, d: bv16, x: bool, y: bool)
    requires (c & 0x8000 != 0) != x && (d & 0x8000 != 0) != y
    ensures BitStep(c ^ d, x != y) == BitStep(c, x) ^ BitStep(d, y)
  {}

  lemma StepFirstAdds(c: bv16, d: bv16, x: bool, y: bool)
    requires (c & 0x8000 != 0) != x && (d & 0x8000 != 0) == y
    ensures BitStep(c ^ d, x != y) == BitStep(c, x) ^ BitStep(d, y)
  {}

  lemma StepSecondAdds(c: bv16, d: bv16, x: bool, y: bool)
    requires (c & 0x8000 != 0) == x && (d & 0x8000 != 0) != y
    ensures BitStep(c ^ d, x != y) == BitStep(c, x) ^ BitStep(d, y)
  {}

  lemma StepNoneAdds(c: bv16, d: bv16, x: bool, y: bool)
    requires (c & 0x8000 != 0) == x && (d & 0x8000 != 0) == y
    ensures BitStep(c ^ d, x != y) == BitStep(c, x) ^ BitStep(d, y)
  {}

  lemma BitStepIsLinear(c: bv16, d: bv16, x: bool, y: bool)
    ensures BitStep(c ^ d, x != y) == BitStep(c, x) ^ BitStep(d, y)
  {
    if (c & 0x8000 != 0) != x {
      if (d & 0x8000 != 0) != y {
        StepBothAdd(c, d, x, y);
      } else {
        StepFirstAdds(c, d, x, y);
      }
    } else if (d & 0x8000 != 0) != y {
      StepSecondAdds(c, d, x, y);
    } else {
      StepNoneAdds(c, d, x, y);
    }
  }

  lemma OnlyZeroStepsToZero(c: bv16)
    ensures BitStep(c, false) == 0 <==> c == 0
  {}

  function Xor(c: bv16, d: bv16): bv16 {
    c ^ d
  }

  lemma XorZero(c: bv16)
    ensures Xor(c, 0) == c
  {}

  lemma XorCommutes(c: bv16, d: bv16)
    ensures Xor(c, d) == Xor(d, c)
  {}

  lemma XorTwice(c: bv16, d: bv16)
    ensures Xor(Xor(c, d), d) == c
  {}

  lemma XorWithItself(c: bv16)
    ensures Xor(c, c) == 0
  {}

  lemma XorIsZero(c: bv16, d: bv16)
    ensures Xor(c, d) == 0 <==> c == d
  {
    hide Xor;
    XorTwice(c, d);
    XorCommutes(0, d);
    XorZero(d);
    XorWithItself(d);
  }

  function LowMask(k: nat): bv16
    requires k <= 16
  {
    match k
    case 0 => 0
    case 1 => 0x0001
    case 2 => 0x0003
    case 3 => 0x0007
    case 4 => 0x000F
    case 5 => 0x001F
    case 6 => 0x003F
    case 7 => 0x007F
    case 8 => 0x00FF
    case 9 => 0x01FF
    case 10 => 0x03FF
    case 11 => 0x07FF
    case 12 => 0x0FFF
    case 13 => 0x1FFF
    case 14 => 0x3FFF
    case 15 => 0x7FFF
    case _ => 0xFFFF
  }

  lemma LowMaskGrows(k: nat)
    requires k < 16
    ensures LowMask(k + 1) == (LowMask(k) << 1) | 1
    ensures LowMask(k) & 0x8000 == 0
  {}

  lemma LowBitSurvives(d: bv16, bit: bool, m: bv16)
    requires m & 0x8000 == 0 && d & m != 0
    ensures BitStep(d, bit) & ((m << 1) | 1) != 0
  {}

  /** There is a one among the low k places of the register. */
  predicate LowNonzero(k: int, d: bv16) {
    0 <= k <= 16 && d & LowMask(k) != 0
  }

  lemma LowNonzeroAdvances(k: int, d: bv16, bit: bool)
    requires 0 <= k < 16 && LowNonzero(k, d)
    ensures LowNonzero(k + 1, BitStep(d, bit))
  {
    LowMaskGrows(k);
    LowBitSurvives(d, bit, LowMask(k));
  }

  /** Is the number of ones among the low eight places odd? */
  function LowParity(c: bv16): bool {
    (((c & 0x80 != 0) != (c & 0x40 != 0)) != ((c & 0x20 != 0) != (c & 0x10 != 0))) !=
    (((c & 0x08 != 0) != (c & 0x04 != 0)) != ((c & 0x02 != 0) != (c & 0x01 != 0)))
  }

  /** Is the number of ones in the register odd? */
  function Parity(c: bv16): bool {
    LowParity(c >> 8) != LowParity(c)
  }

  lemma ParityWhenAdding(c: bv16, bit: bool)
    requires (c & 0x8000 != 0) != bit
    ensures Parity(BitStep(c, bit)) == (Parity(c) != bit)
  {}

  lemma ParityWhenShifting(c: bv16, bit: bool)
    requires (c & 0x8000 != 0) == bit
    ensures Parity(BitStep(c, bit)) == (Parity(c) != bit)
  {}

  /** The generator has an even number of terms, so the register's parity follows the
      message's. */
  lemma StepFlipsParity(c: bv16, bit: bool)
    ensures Parity(BitStep(c, bit)) == (Parity(c) != bit)
  {
    if (c & 0x8000 != 0) != bit {
      ParityWhenAdding(c, bit);
    } else {
      ParityWhenShifting(c, bit);
    }
  }
}
