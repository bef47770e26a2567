/** The decoder seen one frame at a time.

    A machine that takes whole frames and knows nothing of bytes, phases or buffers: it
    gathers the payloads of a message and reports it with its last package.  The decoder
    does to a stream of frames, with noise between them, exactly what this machine does to
    the frames.
  */
module Assembly {
  import opened BitConverter
  import opened FrameRuns
  import opened Frames
  import opened Runs

  /** What has been gathered of the current message, and the room set aside for it. */
  datatype Assembly = Idle | Gathering(room: nat, got: seq<byte>)

  function PayloadOf(f: seq<byte>): seq<byte> {
    if |f| < HEADER_LENGTH + 3 then [] else f[HEADER_LENGTH..|f| - 3]
  }

  function PackageOf(f: seq<byte>): int
    requires Framed(f)
  {
    Short(f, 15)
  }

  function PackagesOf(f: seq<byte>): int
    requires Framed(f)
  {
    Short(f, 17)
  }

  /** Package 1 sets 250 bytes aside for every package of the message. */
  function Begin(a: Assembly, f: seq<byte>): Assembly
    requires Framed(f)
  {
    if PackageOf(f) == 1 then Gathering(PackagesOf(f) * PACKAGE_SIZE, []) else a
  }

  predicate Accepts(a: Assembly, f: seq<byte>)
    requires Framed(f)
  {
    CrcOk(f) && |f| >= HEADER_LENGTH + 3 && a.Gathering? && |a.got| + |PayloadOf(f)| <= a.room
  }

  function MessageOf(f: seq<byte>, text: seq<byte>): Message
    requires Framed(f)
  {
    Message(FRAME_TYPES[TypeIndex(f[0])], text, Short(f, 11))
  }

  /** One frame: it is refused, which forgets what was gathered but keeps the room, or it
      is added, and the last package reports the message. */
  function Take(a: Assembly, f: seq<byte>): (r: (Assembly, Outcome<Message>))
    ensures !r.1.Fault?
  {
    if !Framed(f) then (a, Quiet) else
    var b := Begin(a, f);
    if !Accepts(b, f) then
      (if b.Idle? then Idle else b.(got := []), Quiet)
    else
      var got := b.got + PayloadOf(f);
      if PackageOf(f) == PackagesOf(f) then (Idle, Delivered(MessageOf(f, got)))
      else (b.(got := got), Quiet)
  }

  function TakeAll(a: Assembly, frames: seq<seq<byte>>): Run<Assembly, Message> {
    RunAll(Take, a, frames)
  }

  function View(d: Decoder): Assembly {
    if d.total.None? then Idle else Gathering(|d.total.value|, d.total.value[..d.totalIdx])
  }

  lemma FrameDoneTakes(d: Decoder, f: seq<byte>)
    requires d.listener && Framed(f)
    ensures var (d1, o) := FrameDone(Filled(d, f), f[|f| - 1]);
      d1.phase == Waiting && (View(d1), o) == Take(View(d), f)
  {
    hide CrcOk;
    var e := Filled(d, f);
    assert View(e) == Begin(View(d), f);
    assert f[..|f|] == f;
    HeaderShorts(f, 11);
    if Accepts(Begin(View(d), f), f) {
      var payload, len := PayloadOf(f), |f| - HEADER_LENGTH - 3;
      var total := e.total.value[..e.totalIdx] + payload + e.total.value[e.totalIdx + len..];
      assert total[..e.totalIdx + len] == e.total.value[..e.totalIdx] + payload;
    }
  }

  /** The decoder does to the bytes of a frame what the frame machine does to the frame. */
  lemma FrameRefines(d: Decoder, f: seq<byte>)
    requires d.listener && d.phase == Waiting && Framed(f)
    ensures var r := Decode(d, f);
      && !r.faulted && r.state.phase == Waiting && r.state.listener
      && (View(r.state), r.out) == (Take(View(d), f).0, Reports(Take(View(d), f).1))
  {
    DecodeFrame(d, f);
    FrameDoneTakes(d, f);
  }

  lemma Long(f: seq<byte>)
    requires Framed(f)
    ensures |f| > HEADER_LENGTH > 0
  {}

  lemma LastByteOfAdding(e: Decoder, b: byte)
    requires e.phase == Payload && e.frame.Some? && 2 <= e.buffIdx == e.expectedLen <= |e.frame.value|
    ensures var len := e.expectedLen - HEADER_LENGTH - 3;
      AddPayload(e, b).0.lastByte ==
        if e.total.Some? && len >= 0 && e.totalIdx + len <= |e.total.value| then b else e.lastByte
  {
    hide Short;
  }

  lemma FilledHas(d: Decoder, f: seq<byte>)
    requires Framed(f)
    ensures var e := Filled(d, f);
      && e.phase == Payload && e.frame.Some? && e.frame.value == f && e.buffIdx == e.expectedLen == |f| && e.lastByte == f[|f| - 2]
      && View(e) == Begin(View(d), f)
  {
    hide Short;
  }

  lemma AcceptsIs(e: Decoder, f: seq<byte>)
    requires Framed(f)
    ensures Accepts(View(e), f) <==>
      var len := |f| - HEADER_LENGTH - 3;
      CrcOk(f) && len >= 0 && e.total.Some? && e.totalIdx + len <= |e.total.value|
  {
    hide CrcOk, Short, Framed;
  }

  lemma LastByteOfFrame(e: Decoder, f: seq<byte>, b: byte)
    requires e.phase == Payload && e.frame.Some? && e.frame.value == f
    requires e.buffIdx == e.expectedLen == |f| && |f| > HEADER_LENGTH
    ensures FrameDone(e, b).0.lastByte ==
      var len := |f| - HEADER_LENGTH - 3;
      if CrcOk(f) && len >= 0 && e.total.Some? && e.totalIdx + len <= |e.total.value| then b else e.lastByte
  {
    LastByteOfAdding(e, b);
    assert f[..|f|] == f;
    hide CrcOk, AddPayload;
  }

  /** The byte that the decoder takes for the one before the next: the last of a frame that was
      added, the last but one of a frame that was refused. */
  lemma ByteBeforeNext(d: Decoder, f: seq<byte>)
    requires d.phase == Waiting && Framed(f)
    ensures Decode(d, f).state.lastByte == f[|f| - if Accepts(Begin(View(d), f), f) then 1 else 2]
  {
    hide *;
    Long(f);
    DecodeFrame(d, f);
    FilledHas(d, f);
    AcceptsIs(Filled(d, f), f);
    LastByteOfFrame(Filled(d, f), f, f[|f| - 1]);
  }

  lemma DecodeAppend(d: Decoder, s: seq<byte>, t: seq<byte>)
    ensures Decode(d, s + t) == Then(Decode(d, s), Decode(Decode(d, s).state, t))
  {
    RunAppend<Decoder, byte, Message>(Step, d, s, t);
  }

  /** So a frame that is added lends its last byte: the next frame is read as if it were whole
      when its type byte is missing, if that is the byte before. */
  lemma TypeByteBorrowed(d: Decoder, f: seq<byte>, g: seq<byte>)
    requires d.phase == Waiting && Framed(f) && Framed(g) && Accepts(Begin(View(d), f), f)
    requires d.listener && f[|f| - 1] == g[0]
    ensures Decode(d, f + g[1..]) == Decode(d, f + g)
  {
    ByteBeforeNext(d, f);
    FrameRefines(d, f);
    var d1 := Decode(d, f).state;
    StepsIntoHeader(d1, g);
    assert g != [] && Decode(d1, g) == Decode(d1, g[1..]);
    hide *;
    DecodeAppend(d, f, g);
    DecodeAppend(d, f, g[1..]);
  }

  // ---------- streams of frames ----------

  /** A frame with the noise before it. */
  datatype Noisy = Noisy(noise: seq<byte>, frame: seq<byte>)

  ghost predicate Readable(line: seq<Noisy>) {
    forall i :: 0 <= i < |line| ==> Framed(line[i].frame) && NoiseAnywhere(line[i].noise)
  }

  function Wire(line: seq<Noisy>): seq<byte> {
    if line == [] then [] else line[0].noise + line[0].frame + Wire(line[1..])
  }

  function FramesOf(line: seq<Noisy>): (r: seq<seq<byte>>)
    ensures |r| == |line|
    ensures forall i :: 0 <= i < |line| ==> r[i] == line[i].frame
  {
    seq(|line|, i requires 0 <= i < |line| => line[i].frame)
  }

  lemma NoisyFrameRefines(d: Decoder, n: Noisy)
    requires d.listener && d.phase == Waiting && Framed(n.frame) && NoiseAnywhere(n.noise)
    ensures var r := Decode(d, n.noise + n.frame);
      && !r.faulted && r.state.phase == Waiting && r.state.listener
      && (View(r.state), r.out) == (Take(View(d), n.frame).0, Reports(Take(View(d), n.frame).1))
  {
    hide Step, Take;
    RunAppend<Decoder, byte, Message>(Step, d, n.noise, n.frame);
    assert Noise(d.lastByte, n.noise);
    DecodeNoise(d, n.noise);
    var d1 := Decode(d, n.noise).state;
    assert View(d1) == View(d);
    FrameRefines(d1, n.frame);
    var out := Decode(d1, n.frame).out;
    assert [] + out == out;
  }

  /** The decoder refines the frame machine: over any stream of frames with noise between
      them the two report the same messages, and the decoder ends waiting for a frame. */
  lemma {:induction false} DecoderRefines(d: Decoder, line: seq<Noisy>)
    requires d.listener && d.phase == Waiting && Readable(line)
    ensures var r := Decode(d, Wire(line));
      && !r.faulted && r.state.phase == Waiting && r.state.listener
      && Run(View(r.state), r.out, false) == TakeAll(View(d), FramesOf(line))
    decreases |line|
  {
    hide Step, Take, Framed, NoiseAnywhere;
    if line != [] {
      var first := line[0].noise + line[0].frame;
      NoisyFrameRefines(d, line[0]);
      RunAppend<Decoder, byte, Message>(Step, d, first, Wire(line[1..]));
      DecoderRefines(Decode(d, first).state, line[1..]);
      assert FramesOf(line)[1..] == FramesOf(line[1..]);
      TakeFirst(View(d), FramesOf(line));
    }
  }

  lemma TakeFirst(a: Assembly, frames: seq<seq<byte>>)
    requires frames != []
    ensures var (a1, o) := Take(a, frames[0]); var r := TakeAll(a1, frames[1..]);
      TakeAll(a, frames) == r.(out := Reports(o) + r.out)
  {}
}
