/** What the decoder does with a whole frame, whatever its payload and checksum. */
module FrameRuns {
  import opened Options
  import opened BitConverter
  import opened Frames
  import opened Runs

  /** The shape the header check and the buffer allocations ask for: a known type, the
      serial number, the declared length right and long enough, and, where the frame
      starts a message, a package count that is not negative. */
  predicate Framed(f: seq<byte>) {
    && |f| > HEADER_LENGTH
    && TypeIndex(f[0]) > 0
    && f[1..5] == SERIAL_BYTES
    && Short(f, 5) == |f|
    && (Short(f, 15) == 1 ==> Short(f, 17) >= 0)
  }

  function InHeader(d: Decoder, f: seq<byte>, k: nat): Decoder
    requires 2 <= k < HEADER_LENGTH && k <= |f|
  {
    d.(phase := Header, header := f[..k] + d.header[k..], buffIdx := k, lastByte := f[k - 1])
  }

  /** The fields a complete header sets. */
  function Opened(d: Decoder, f: seq<byte>): Decoder
    requires Framed(f)
  {
    d.(phase := Payload,
       frameType := FRAME_TYPES[TypeIndex(f[0])],
       header := f[..HEADER_LENGTH],
       expectedLen := |f|,
       package := Short(f, 15),
       packages := Short(f, 17),
       total := if Short(f, 15) == 1 then Some(Zeros(Short(f, 17) * PACKAGE_SIZE)) else d.total,
       totalIdx := if Short(f, 15) == 1 then 0 else d.totalIdx)
  }

  function InPayload(d: Decoder, f: seq<byte>, k: nat): Decoder
    requires Framed(f) && HEADER_LENGTH <= k <= |f|
  {
    Opened(d, f).(frame := Some(f[..k] + Zeros(|f| - k)), buffIdx := k, lastByte := f[k - 1])
  }

  /** The decoder with the whole frame in its buffer, about to check it. */
  function Filled(d: Decoder, f: seq<byte>): Decoder
    requires Framed(f)
  {
    Opened(d, f).(frame := Some(f), buffIdx := |f|, lastByte := f[|f| - 2])
  }

  lemma TypeByteIsNotSerial(b: byte)
    requires TypeIndex(b) > 0
    ensures b != SERIAL_BYTES[0]
  {}

  lemma StepsIntoHeader(d: Decoder, f: seq<byte>)
    requires d.phase == Waiting && Framed(f)
    ensures Step(d, f[0]) == (d.(lastByte := f[0]), Quiet)
    ensures Step(d.(lastByte := f[0]), f[1]) == (InHeader(d, f, 2), Quiet)
  {
    TypeByteIsNotSerial(f[0]);
    assert f[1] == f[1..5][0];
    assert InHeader(d, f, 2).header == d.header[0 := f[0]][1 := f[1]];
  }

  lemma StepInHeader(d: Decoder, f: seq<byte>, k: nat)
    requires |f| >= HEADER_LENGTH && 2 <= k < HEADER_LENGTH - 1
    ensures Step(InHeader(d, f, k), f[k]) == (InHeader(d, f, k + 1), Quiet)
  {
    assert InHeader(d, f, k + 1).header == InHeader(d, f, k).header[k := f[k]];
  }

  lemma {:induction false} HeaderPrefix(d: Decoder, f: seq<byte>, k: nat)
    requires d.phase == Waiting && Framed(f) && 2 <= k < HEADER_LENGTH
    ensures Decode(d, f[..k]) == Run(InHeader(d, f, k), [], false)
  {
    hide Step;
    if k == 2 {
      StepsIntoHeader(d, f);
      RunOneMore<Decoder, byte, Message>(Step, d, f, 0, d, d.(lastByte := f[0]), Quiet);
      RunOneMore<Decoder, byte, Message>(Step, d, f, 1, d.(lastByte := f[0]), InHeader(d, f, 2), Quiet);
    } else {
      HeaderPrefix(d, f, k - 1);
      StepInHeader(d, f, k - 1);
      RunOneMore<Decoder, byte, Message>(Step, d, f, k - 1, InHeader(d, f, k - 1), InHeader(d, f, k), Quiet);
    }
  }

  lemma HeaderShorts(f: seq<byte>, index: nat)
    requires |f| >= HEADER_LENGTH && index + 2 <= HEADER_LENGTH
    ensures Short(f[..HEADER_LENGTH], index) == Short(f, index)
  {
    assert f[..HEADER_LENGTH][index..index + 2] == f[index..index + 2];
  }

  lemma HeaderDoneOpens(d: Decoder, f: seq<byte>)
    requires Framed(f)
    requires d.phase == Payload && d.buffIdx == HEADER_LENGTH && d.header == f[..HEADER_LENGTH]
    ensures HeaderDone(d, f[HEADER_LENGTH - 1]) == (InPayload(d, f, HEADER_LENGTH), Quiet)
  {
    HeaderShorts(f, 5);
    HeaderShorts(f, 15);
    HeaderShorts(f, 17);
    assert f[..HEADER_LENGTH][1..5] == f[1..5];
  }

  lemma StepOutOfHeader(d: Decoder, f: seq<byte>)
    requires Framed(f)
    ensures Step(InHeader(d, f, HEADER_LENGTH - 1), f[HEADER_LENGTH - 1]) == (InPayload(d, f, HEADER_LENGTH), Quiet)
  {
    var d1 := InHeader(d, f, HEADER_LENGTH - 1);
    assert d1.header[HEADER_LENGTH - 1 := f[HEADER_LENGTH - 1]] == f[..HEADER_LENGTH];
    HeaderDoneOpens(d1.(header := f[..HEADER_LENGTH], buffIdx := HEADER_LENGTH, phase := Payload), f);
  }

  lemma StepInPayload(d: Decoder, f: seq<byte>, k: nat)
    requires Framed(f) && HEADER_LENGTH <= k < |f| - 1
    ensures Step(InPayload(d, f, k), f[k]) == (InPayload(d, f, k + 1), Quiet)
  {
    assert InPayload(d, f, k).frame.value[k := f[k]] == f[..k + 1] + Zeros(|f| - k - 1);
  }

  lemma {:induction false} PayloadPrefix(d: Decoder, f: seq<byte>, k: nat)
    requires d.phase == Waiting && Framed(f) && HEADER_LENGTH <= k < |f|
    ensures Decode(d, f[..k]) == Run(InPayload(d, f, k), [], false)
  {
    hide Step;
    if k == HEADER_LENGTH {
      HeaderPrefix(d, f, k - 1);
      StepOutOfHeader(d, f);
      RunOneMore<Decoder, byte, Message>(Step, d, f, k - 1, InHeader(d, f, k - 1), InPayload(d, f, k), Quiet);
    } else {
      PayloadPrefix(d, f, k - 1);
      StepInPayload(d, f, k - 1);
      RunOneMore<Decoder, byte, Message>(Step, d, f, k - 1, InPayload(d, f, k - 1), InPayload(d, f, k), Quiet);
    }
  }

  lemma StepOnLastByte(d: Decoder, f: seq<byte>)
    requires Framed(f)
    ensures Step(InPayload(d, f, |f| - 1), f[|f| - 1]) == FrameDone(Filled(d, f), f[|f| - 1])
  {
    hide CrcOk;
    var k := |f| - 1;
    assert InPayload(d, f, k).frame.value[k := f[k]] == f;
  }

  /** A whole frame leads to exactly one check of the frame, on its last byte, and no
      exception leaves the decoder. */
  lemma DecodeFrame(d: Decoder, f: seq<byte>)
    requires d.phase == Waiting && Framed(f)
    ensures var (d1, o) := FrameDone(Filled(d, f), f[|f| - 1]);
      !o.Fault? && Decode(d, f) == Run(d1, Reports(o), false)
  {
    hide FrameDone;

    var k := |f| - 1;
    PayloadPrefix(d, f, k);
    StepOnLastByte(d, f);
    var (d2, o) := FrameDone(Filled(d, f), f[k]);
    RunOneMore<Decoder, byte, Message>(Step, d, f, k, InPayload(d, f, k), d2, o);
    assert f[..k + 1] == f;
  }

  lemma StepWithoutListener(d: Decoder, b: byte)
    requires !d.listener
    ensures !Step(d, b).1.Delivered?
  {
    hide CrcOk, HeaderOk;
  }

  /** Without a callback nothing is ever reported. */
  lemma {:induction false} NoListenerHearsNothing(d: Decoder, s: seq<byte>)
    requires !d.listener
    ensures Decode(d, s).out == [] && !Decode(d, s).state.listener
    decreases |s|
  {
    if s != [] {
      StepWithoutListener(d, s[0]);
      hide Step;
      var (d1, o) := Step(d, s[0]);
      if !o.Fault? {
        NoListenerHearsNothing(d1, s[1..]);
      }
    }
  }

  /** Bytes other than the first serial byte pass unnoticed between frames. */
  lemma {:induction false} DecodeGarbage(d: Decoder, s: seq<byte>)
    requires d.phase == Waiting && SERIAL_BYTES[0] !in s
    ensures Decode(d, s) == Run(d.(lastByte := if s == [] then d.lastByte else s[|s| - 1]), [], false)
    decreases |s|
  {
    if s != [] {
      assert s[0] in s;
      DecodeGarbage(d.(lastByte := s[0]), s[1..]);
    }
  }

  // ---------- bytes that look like a header ----------

  /** A type byte and the serial number. */
  predicate StartsFrame(h: seq<byte>)
    requires |h| == HEADER_LENGTH
  {
    h[0] in [0x41, 0x44, 0x42, 0x43, 0x50, 0x45, 0xC5, 0xC4] && h[1] == 0xE7 && h[2] == 0x18 && h[3] == 0x81 && h[4] == 0x7E
  }

  lemma HeaderOkIff(h: seq<byte>)
    requires |h| == HEADER_LENGTH
    ensures HeaderOk(h) <==> StartsFrame(h)
  {
    assert h[1..5] == [h[1], h[2], h[3], h[4]];
  }

  /** From the first serial byte on, with the byte that came before it. */
  lemma {:induction false} StrayPrefix(d: Decoder, h: seq<byte>, k: nat)
    requires d.phase == Waiting && |h| == HEADER_LENGTH && h[0] == d.lastByte && h[1] == SERIAL_BYTES[0]
    requires 2 <= k < HEADER_LENGTH
    ensures Decode(d, h[1..k]) == Run(InHeader(d, h, k), [], false)
  {
    var s := h[1..];
    assert h[1..k] == s[..k - 1];
    if k == 2 {
      assert InHeader(d, h, 2).header == d.header[0 := h[0]][1 := h[1]];
      assert Step(d, s[0]) == (InHeader(d, h, 2), Quiet);
      hide Step;
      RunOneMore<Decoder, byte, Message>(Step, d, s, 0, d, InHeader(d, h, 2), Quiet);
    } else {
      hide Step;
      StrayPrefix(d, h, k - 1);
      assert h[1..k - 1] == s[..k - 2];
      StepInHeader(d, h, k - 1);
      RunOneMore<Decoder, byte, Message>(Step, d, s, k - 2, InHeader(d, h, k - 1), InHeader(d, h, k), Quiet);
    }
  }

  /** The decoder with a full header in its buffer. */
  function Headed(d: Decoder, h: seq<byte>): Decoder
    requires |h| == HEADER_LENGTH
  {
    d.(phase := Payload, header := h, buffIdx := HEADER_LENGTH, lastByte := h[HEADER_LENGTH - 2])
  }

  lemma StrayHeader(d: Decoder, h: seq<byte>)
    requires d.phase == Waiting && |h| == HEADER_LENGTH && h[0] == d.lastByte && h[1] == SERIAL_BYTES[0]
    ensures var (d1, o) := HeaderDone(Headed(d, h), h[HEADER_LENGTH - 1]);
      Decode(d, h[1..]) == Run(d1, Reports(o), o.Fault?)
  {
    var k := HEADER_LENGTH - 1;
    StrayPrefix(d, h, k);
    assert InHeader(d, h, k).header[k := h[k]] == h;
    assert Step(InHeader(d, h, k), h[k]) == HeaderDone(Headed(d, h), h[k]);
    hide Step, HeaderDone;
    var (d1, o) := HeaderDone(Headed(d, h), h[k]);
    assert h[1..k] == h[1..][..k - 1] && h[1..][..k] == h[1..];
    RunOneMore<Decoder, byte, Message>(Step, d, h[1..], k - 1, InHeader(d, h, k), d1, o);
  }

  /** What becomes of 0xE7, the byte before it, and the seventeen after it: anything but a type
      byte and the serial number is passed over, and so is a frame of no length; a frame that is
      too short, or starts a message of fewer than no packages, is an exception; otherwise the
      rest of the frame is awaited. */
  lemma HeaderOutcome(d: Decoder, h: seq<byte>)
    requires d.phase == Waiting && |h| == HEADER_LENGTH && h[0] == d.lastByte && h[1] == 0xE7
    ensures var r := Decode(d, h[1..]);
      && r.out == [] && r.state.listener == d.listener
      && (!StartsFrame(h) ==> !r.faulted && r.state.phase == Waiting)
      && (StartsFrame(h) && Short(h, 5) == 0 ==> !r.faulted && r.state.phase == Waiting)
      && (!r.faulted && r.state.phase == Waiting ==>
            r.state.total == d.total && r.state.totalIdx == d.totalIdx && r.state.lastByte == h[HEADER_LENGTH - 2])
      && (StartsFrame(h) && Short(h, 5) != 0 ==>
            && (r.faulted <==> Short(h, 5) < HEADER_LENGTH || (Short(h, 15) == 1 && Short(h, 17) < 0))
            && (!r.faulted ==>
                  && r.state.phase == Payload && r.state.expectedLen == Short(h, 5) && r.state.buffIdx == HEADER_LENGTH
                  && r.state.frame == Some(h + Zeros(Short(h, 5) - HEADER_LENGTH))))
  {
    StrayHeader(d, h);
    HeaderOkIff(h);
    hide Step, Short, StartsFrame, HeaderOk;
  }

  /** A frame that ends with its header has no room for the byte that comes next. */
  lemma HeaderAloneThrows(d: Decoder, h: seq<byte>, b: byte)
    requires d.phase == Waiting && |h| == HEADER_LENGTH && h[0] == d.lastByte && StartsFrame(h)
    requires Short(h, 5) == HEADER_LENGTH
    ensures Decode(d, h[1..] + [b]).faulted
  {
    HeaderOutcome(d, h);
    hide Short, StartsFrame;
    var r := Decode(d, h[1..]);
    if !r.faulted {
      assert Step(r.state, b).1.Fault?;
      RunOne<Decoder, byte, Message>(Step, r.state, b);
    }
    hide Step;
    RunAppend<Decoder, byte, Message>(Step, d, h[1..], [b]);
  }

  /** What the decoder passes over when it waits for a frame: bytes other than 0xE7, and
      eighteen bytes from 0xE7 on that are no header of a frame, or of one without length. */
  predicate Noise(before: byte, s: seq<byte>)
    decreases |s|
  {
    s == [] ||
    if s[0] != 0xE7 then Noise(s[0], s[1..])
    else
      && |s| >= HEADER_LENGTH - 1 && var h := [before] + s[..HEADER_LENGTH - 1];
      && (!StartsFrame(h) || Short(h, 5) == 0)
      && Noise(h[HEADER_LENGTH - 2], s[HEADER_LENGTH - 1..])
  }

  /** It leaves the decoder waiting, with what it has gathered, and silent. */
  lemma {:induction false} DecodeNoise(d: Decoder, s: seq<byte>)
    requires d.phase == Waiting && Noise(d.lastByte, s)
    ensures var r := Decode(d, s);
      && !r.faulted && r.out == [] && r.state.phase == Waiting && r.state.listener == d.listener
      && r.state.total == d.total && r.state.totalIdx == d.totalIdx
    decreases |s|
  {
    if s == [] {
    } else if s[0] != 0xE7 {
      DecodeNoise(d.(lastByte := s[0]), s[1..]);
    } else {
      hide Step, Short, StartsFrame;
      var k := HEADER_LENGTH - 1;
      var h := [d.lastByte] + s[..k];
      HeaderOutcome(d, h);
      assert h[1..] == s[..k];
      var d1 := Decode(d, s[..k]).state;
      DecodeNoise(d1, s[k..]);
      assert s == s[..k] + s[k..];
      RunAppend<Decoder, byte, Message>(Step, d, s[..k], s[k..]);
    }
  }

  /** Noise whatever the byte before it. */
  ghost predicate NoiseAnywhere(s: seq<byte>) {
    forall b: byte :: Noise(b, s)
  }

  lemma {:induction false} NoiseWithout(before: byte, s: seq<byte>)
    requires 0xE7 !in s
    ensures Noise(before, s)
    decreases |s|
  {
    if s != [] {
      assert s[0] in s;
      NoiseWithout(s[0], s[1..]);
    }
  }

  /** A stray 0xE7 right before a frame makes noise of it, unless that byte occurs in the frame
      once more. */
  lemma StrayByteHidesFrame(before: byte, f: seq<byte>)
    requires Framed(f) && 0xE7 !in f[HEADER_LENGTH - 2..]
    ensures Noise(before, [0xE7] + f)
  {
    var s, k := [0xE7] + f, HEADER_LENGTH - 1;
    var h := [before] + s[..k];
    assert h[2] == f[0];
    assert s[k..] == f[k - 1..];
    hide Short;
    NoiseWithout(h[k], s[k..]);
  }
}
