/** Frames damaged on the way. */
module Corruption {
  import opened Assembly
  import opened BitConverter
  import opened Crc
  import opened CrcDetection
  import opened FrameRuns
  import opened Frames
  import opened Register
  import opened ShiftRegister

  /** What the checksum covers. */
  function Covered(f: seq<byte>): seq<byte>
    requires |f| >= 2
  {
    f[..|f| - 2]
  }

  /** The ways of damaging a frame considered here: at most sixteen consecutive bits, or
      at most two neighbouring bytes, of what the checksum covers; the checksum field only;
      or an odd number of bits anywhere. */
  predicate Damaged(f: seq<byte>, g: seq<byte>) {
    && |f| == |g| >= 2
    && (|| DamagedInBurst(f, g)
        || DamagedInTwoBytes(f, g)
        || (f != g && Covered(f) == Covered(g))
        || Odd(Difference(Bits(f), Bits(g))))
  }

  predicate DamagedInBurst(f: seq<byte>, g: seq<byte>)
    requires |f| == |g| >= 2
  {
    f[|f| - 2..] == g[|f| - 2..] && exists i: nat :: i <= 8 * |f| && IsBurst16(Difference(Bits(Covered(f)), Bits(Covered(g))), i)
  }

  predicate IsBurst16(e: seq<bool>, i: nat) {
    exists k: nat :: k <= 16 && Burst(e, i, k)
  }

  predicate DamagedInTwoBytes(f: seq<byte>, g: seq<byte>)
    requires |f| == |g| >= 2
  {
    && f != g
    && exists i: nat :: i <= |f| - 2 && SameOutside(f, g, i)
  }

  /** The frames agree except perhaps at i and i + 1, which the checksum covers. */
  predicate SameOutside(f: seq<byte>, g: seq<byte>, i: nat)
    requires |f| == |g|
  {
    forall j :: 0 <= j < |f| && (j < i || j > i + 1 || j >= |f| - 2) ==> f[j] == g[j]
  }

  lemma SameField(f: seq<byte>, g: seq<byte>)
    requires |f| == |g| >= 2 && CrcOk(f) && CrcOk(g)
    requires f[|f| - 2..] == g[|f| - 2..]
    ensures Crc16(Covered(f)) == Crc16(Covered(g))
  {
    hide Crc16;
    assert f[|f| - 2] == f[|f| - 2..][0] && f[|f| - 1] == f[|f| - 2..][1];
    assert g[|f| - 2] == g[|f| - 2..][0] && g[|f| - 1] == g[|f| - 2..][1];
  }

  lemma TwoBytesBreak(f: seq<byte>, g: seq<byte>, i: nat)
    requires |f| == |g| >= 2 && f != g && i <= |f| - 2 && SameOutside(f, g, i)
    ensures f[|f| - 2..] == g[|f| - 2..] && Crc16(Covered(f)) != Crc16(Covered(g))
  {
    var n := |f| - 2;
    var j := if i + 2 <= n then i + 2 else n;
    var p, x, y, q := f[..i], f[i..j], g[i..j], f[j..n];
    SameAround(f, g, i, j);
    hide *;
    CutInFour(f, i, j, n);
    CutInFour(g, i, j, n);
    DetectsTwoBytes(p, x, y, q);
    CoveredParts(f, p, x, q);
    CoveredParts(g, p, y, q);
  }

  lemma CutInFour(f: seq<byte>, i: nat, j: nat, n: nat)
    requires i <= j <= n <= |f|
    ensures f == f[..i] + f[i..j] + f[j..n] + f[n..]
  {}

  lemma SameAround(f: seq<byte>, g: seq<byte>, i: nat, j: nat)
    requires |f| == |g| >= 2 && i <= |f| - 2 && SameOutside(f, g, i) && i <= j <= |f| - 2 && (j == i + 2 || j == |f| - 2)
    ensures g[..i] == f[..i] && g[j..|f| - 2] == f[j..|f| - 2] && g[|f| - 2..] == f[|f| - 2..]
  {
    assert forall l :: 0 <= l < i || j <= l < |f| ==> f[l] == g[l];
  }

  lemma CoveredParts(f: seq<byte>, p: seq<byte>, x: seq<byte>, q: seq<byte>)
    requires |f| >= 2 && f == p + x + q + f[|f| - 2..]
    ensures Covered(f) == p + x + q
  {}

  lemma FieldBreaks(f: seq<byte>, g: seq<byte>)
    requires |f| == |g| >= 2 && CrcOk(f) && f != g && Covered(f) == Covered(g)
    ensures !CrcOk(g)
  {
    hide Crc16;
    assert f == Covered(f) + [f[|f| - 2], f[|f| - 1]];
    assert g == Covered(g) + [g[|f| - 2], g[|f| - 1]];
  }

  lemma GoodFrameParity(f: seq<byte>)
    requires CrcOk(f)
    ensures Odd(Bits(f)) == Parity(CRC_INIT)
  {
    hide Crc16, Odd, Bits, Parity;
    DetectsOddErrors(Covered(f), f[|f| - 2], f[|f| - 1]);
    assert f == Covered(f) + [f[|f| - 2], f[|f| - 1]];
  }

  lemma OddBreaks(f: seq<byte>, g: seq<byte>)
    requires |f| == |g| >= 2 && CrcOk(f) && Odd(Difference(Bits(f), Bits(g)))
    ensures !CrcOk(g)
  {
    OddOfDifference(Bits(f), Bits(g));
    hide CrcOk, Odd, Bits, Difference, Parity;
    GoodFrameParity(f);
    if CrcOk(g) {
      GoodFrameParity(g);
    }
  }

  /** A damaged frame no longer has a good checksum. */
  lemma DamageBreaks(f: seq<byte>, g: seq<byte>)
    requires CrcOk(f) && Damaged(f, g)
    ensures !CrcOk(g)
  {
    hide Crc16, Odd, Difference, Bits;
    if Odd(Difference(Bits(f), Bits(g))) {
      OddBreaks(f, g);
    } else if f != g && Covered(f) == Covered(g) {
      FieldBreaks(f, g);
    } else if DamagedInTwoBytes(f, g) {
      var i: nat :| i <= |f| - 2 && SameOutside(f, g, i);
      TwoBytesBreak(f, g, i);
      if CrcOk(g) {
        SameField(f, g);
      }
    } else {
      var i: nat :| i <= 8 * |f| && IsBurst16(Difference(Bits(Covered(f)), Bits(Covered(g))), i);
      var k: nat :| k <= 16 && Burst(Difference(Bits(Covered(f)), Bits(Covered(g))), i, k);
      DetectsBurst(Covered(f), Covered(g), i, k);
      if CrcOk(g) {
        SameField(f, g);
      }
    }
  }

  /** A damaged frame is never delivered: if the damage leaves the type, the serial
      number, the length and the sign of the package count alone, the decoder drops the
      frame on its last byte, forgets what it had gathered and waits for the next. */
  lemma DamagedFrameDropped(d: Decoder, f: seq<byte>, g: seq<byte>)
    requires d.listener && d.phase == Waiting
    requires CrcOk(f) && Damaged(f, g) && Framed(g)
    ensures var r := Decode(d, g);
      && !r.faulted && r.out == [] && r.state.phase == Waiting
      && (View(r.state).Gathering? ==> View(r.state).got == [])
  {
    DamageBreaks(f, g);
    hide CrcOk, Step, Damaged;
    FrameRefines(d, g);
  }
}
