/** Frames as the controller sends them, written out byte by byte, and what arrives of them. */
module Replies {
  import opened Assembly
  import opened BitConverter
  import opened Crc
  import Encoding
  import opened FrameRuns
  import opened Frames
  import opened Reassembly
  import opened Runs
  import opened Texts

  /** One package of a message, and the noise before it. */
  datatype Reply = Reply(
    noise: seq<byte>, typeByte: byte, unused: seq<byte>, id: int, receiver: seq<byte>, package: int, packages: int,
    payload: seq<byte>)

  function TypeNamed(b: byte): FrameType {
    match b
    case 0x41 => Acknowledge
    case 0x44 => Data
    case 0x42 => Binary
    case 0x43 => Control
    case 0x50 => Prompt
    case 0x45 => Error
    case 0xC5 => Async
    case 0xC4 => Async2
    case _ => Invalid
  }

  ghost predicate Proper(r: Reply) {
    && NoiseAnywhere(r.noise) && TypeNamed(r.typeByte) != Invalid
    && |r.unused| == 4 && Fits(r.id, 2) && |r.receiver| == 2
    && 0 <= r.package < 0x8000 && 0 <= r.packages < 0x8000 && |r.payload| + HEADER_LENGTH + 3 < 0x8000
  }

  /** The nineteen bytes of the header. */
  function HeaderBytes(r: Reply): seq<byte> {
    [r.typeByte] + [0xE7, 0x18, 0x81, 0x7E] + LittleEndian(|r.payload| + HEADER_LENGTH + 3, 2) + r.unused +
    (LittleEndian(r.id, 2) + r.receiver) + LittleEndian(r.package, 2) + LittleEndian(r.packages, 2)
  }

  function Body(r: Reply): seq<byte> {
    HeaderBytes(r) + r.payload + [0]
  }

  function Frame(r: Reply): seq<byte> {
    Body(r) + LittleEndian(Crc16(Body(r)), 2)
  }

  lemma HeaderFields(r: Reply)
    requires Proper(r)
    ensures var h := HeaderBytes(r);
      && |h| == HEADER_LENGTH && h[0] == r.typeByte && h[1..5] == SERIAL_BYTES
      && Short(h, 5) == |r.payload| + HEADER_LENGTH + 3
      && Short(h, 11) == r.id && Short(h, 15) == r.package && Short(h, 17) == r.packages
  {
    Encoding.ShortOf(|r.payload| + HEADER_LENGTH + 3);
    Encoding.ShortOf(r.package);
    Encoding.ShortOf(r.packages);
    RoundTrip(r.id, 2);
    var h, e := HeaderBytes(r), LittleEndian(r.id, 2) + r.receiver;
    hide LittleEndian, Signed, Fits, NoiseAnywhere;
    Encoding.HeaderPieces([r.typeByte], [0xE7, 0x18, 0x81, 0x7E], LittleEndian(|r.payload| + HEADER_LENGTH + 3, 2), r.unused,
                          e, LittleEndian(r.package, 2), LittleEndian(r.packages, 2));
    assert h[11..13] == h[11..15][..2] && e[..2] == LittleEndian(r.id, 2);
  }

  lemma TypeIs(b: byte)
    requires TypeNamed(b) != Invalid
    ensures TypeIndex(b) > 0 && FRAME_TYPES[TypeIndex(b)] == TypeNamed(b)
  {}

  lemma ChecksumIs(r: Reply)
    requires |Frame(r)| >= 2
    ensures CrcOk(Frame(r))
  {
    var body, f := Body(r), Frame(r);
    Encoding.CrcFieldValue(Crc16(body));
    hide Crc16, LittleEndian, Body;
    assert f[..|f| - 2] == body && f[|f| - 2..] == LittleEndian(Crc16(body), 2);
  }

  lemma FrameFields(r: Reply)
    requires Proper(r)
    ensures var f := Frame(r);
      && Framed(f) && CrcOk(f) && |f| == |r.payload| + HEADER_LENGTH + 3
      && PackageOf(f) == r.package && PackagesOf(f) == r.packages && PayloadOf(f) == r.payload
      && forall s :: MessageOf(f, s) == Message(TypeNamed(r.typeByte), s, r.id)
  {
    var f, h := Frame(r), HeaderBytes(r);
    HeaderFields(r);
    FrameSlices(r);
    ChecksumIs(r);
    TypeIs(r.typeByte);
    hide Crc16, CrcOk, LittleEndian, HeaderBytes, Short, Frame, Body, NoiseAnywhere, Fits, TypeNamed, TypeIndex;
    HeaderShorts(f, 5);
    HeaderShorts(f, 11);
    HeaderShorts(f, 15);
    HeaderShorts(f, 17);
  }

  lemma FrameSlices(r: Reply)
    requires |HeaderBytes(r)| == HEADER_LENGTH
    ensures var (f, h) := (Frame(r), HeaderBytes(r));
      && |f| == |r.payload| + HEADER_LENGTH + 3
      && f[0] == h[0] && f[..HEADER_LENGTH] == h && f[1..5] == h[1..5] && f[HEADER_LENGTH..|f| - 3] == r.payload
  {
    hide Crc16, LittleEndian, HeaderBytes;
  }

  // ---------- a message in packages ----------

  /** All the packages of a message, in order, that fit the room for them. */
  ghost predicate Whole(rs: seq<Reply>) {
    && rs != [] && |Payload(rs)| <= |rs| * PACKAGE_SIZE
    && forall i :: 0 <= i < |rs| ==> Proper(rs[i]) && rs[i].package == i + 1 && rs[i].packages == |rs|
  }

  function Payload(rs: seq<Reply>): seq<byte> {
    if rs == [] then [] else rs[0].payload + Payload(rs[1..])
  }

  function Wired(rs: seq<Reply>): seq<byte> {
    if rs == [] then [] else rs[0].noise + Frame(rs[0]) + Wired(rs[1..])
  }

  function NoisyFrames(rs: seq<Reply>): (r: seq<Noisy>)
    ensures |r| == |rs| && forall i :: 0 <= i < |rs| ==> r[i] == Noisy(rs[i].noise, Frame(rs[i]))
  {
    seq(|rs|, i requires 0 <= i < |rs| => Noisy(rs[i].noise, Frame(rs[i])))
  }

  lemma {:induction false} SameWire(rs: seq<Reply>)
    ensures Wire(NoisyFrames(rs)) == Wired(rs)
  {
    hide Frame;
    if rs != [] {
      assert NoisyFrames(rs)[1..] == NoisyFrames(rs[1..]);
      SameWire(rs[1..]);
    }
  }

  lemma {:induction false} SamePayload(rs: seq<Reply>)
    requires forall i :: 0 <= i < |rs| ==> Proper(rs[i])
    ensures Payloads(FramesOf(NoisyFrames(rs))) == Payload(rs)
  {
    hide Frame, Proper, PayloadOf;
    var frames := FramesOf(NoisyFrames(rs));
    if rs != [] {
      FrameFields(rs[0]);
      assert frames[0] == Frame(rs[0]) && frames[1..] == FramesOf(NoisyFrames(rs[1..]));
      SamePayload(rs[1..]);
    }
  }

  lemma ArePackages(rs: seq<Reply>)
    requires Whole(rs)
    ensures var line := NoisyFrames(rs); Readable(line) && PackagesFrom(FramesOf(line), 0, |line|)
    ensures NumberedFrom(FramesOf(NoisyFrames(rs)), 0, |rs|)
  {
    hide Frame, Payload, Framed, CrcOk, PayloadOf, MessageOf, NoiseAnywhere;
    forall i | 0 <= i < |rs|
      ensures IsPackage(Frame(rs[i]), i, |rs|) && Framed(Frame(rs[i])) && NoiseAnywhere(rs[i].noise)
    {
      FrameFields(rs[i]);
    }
  }

  /** A message that the controller sends, in one package or many, arrives as one message with
      the type and the id of its last package and all its payload. */
  lemma MessageArrives(d: Decoder, rs: seq<Reply>)
    requires d.listener && d.phase == Waiting && Whole(rs)
    ensures var r := Decode(d, Wired(rs)); var last := rs[|rs| - 1];
      && !r.faulted && r.state.phase == Waiting && r.state.listener
      && r.out == [Message(TypeNamed(last.typeByte), Payload(rs), last.id)]
  {
    var line, k := NoisyFrames(rs), |rs|;
    ArePackages(rs);
    SameWire(rs);
    SamePayload(rs);
    FrameFields(rs[k - 1]);
    DecoderRefines(d, line);
    ReassemblyComplete(View(d), FramesOf(line));
    hide Decode, Frame, Payload, Payloads, TakeAll, MessageOf, Readable, PackagesFrom, NumberedFrom, IsPackage, Proper,
      Framed, CrcOk;
  }

  /** What arrives of a whole conversation. */
  function Conversation(line: seq<seq<Reply>>): seq<byte> {
    if line == [] then [] else Wired(line[0]) + Conversation(line[1..])
  }

  function Heard(line: seq<seq<Reply>>): seq<Message>
    requires forall i :: 0 <= i < |line| ==> line[i] != []
  {
    if line == [] then []
    else
      var last := line[0][|line[0]| - 1];
      [Message(TypeNamed(last.typeByte), Payload(line[0]), last.id)] + Heard(line[1..])
  }

  /** All messages of the controller arrive, once each and in order, with their types, ids and
      texts. */
  lemma {:induction false} ConversationArrives(d: Decoder, line: seq<seq<Reply>>)
    requires d.listener && d.phase == Waiting && forall i :: 0 <= i < |line| ==> Whole(line[i])
    ensures forall i :: 0 <= i < |line| ==> line[i] != []
    ensures var r := Decode(d, Conversation(line)); !r.faulted && r.state.phase == Waiting && r.out == Heard(line)
    decreases |line|
  {
    hide Step, Wired, Payload, TypeNamed, Proper;
    if line != [] {
      MessageArrives(d, line[0]);
      var first := Wired(line[0]);
      RunAppend<Decoder, byte, Message>(Step, d, first, Conversation(line[1..]));
      ConversationArrives(Decode(d, first).state, line[1..]);
    }
  }
}
