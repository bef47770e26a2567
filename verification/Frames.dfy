/** The frames of the motion-controller protocol, and what the decoder does with one byte.

    A frame is a 19-byte header, the payload, one zero byte and a 16-bit checksum, low
    byte first.  The header holds the frame type, a fixed serial number, the length of the
    frame, a number the controller ignores, the sender id, the receiver id, the package
    number and the number of packages.
  */
module Frames {
  import opened Options
  import opened BitConverter
  import opened Crc
  import opened Runs

  const HEADER_LENGTH := 19
  const PACKAGE_SIZE := 250

  /** The bytes of 0x7e8118e7, least significant first. */
  const SERIAL_BYTES: seq<byte> := [0xE7, 0x18, 0x81, 0x7E]

  datatype FrameType =
    | Invalid | Acknowledge | Data | Binary | Control | Prompt | Error | Async | Async2 | AsyncOther

  const FRAME_TYPES: seq<FrameType> :=
    [Invalid, Acknowledge, Data, Binary, Control, Prompt, Error, Async, Async2, AsyncOther]

  /** The type byte of each frame type; the last type has none. */
  const FRAME_TYPE_BYTES: seq<byte> := [0, 0x41, 0x44, 0x42, 0x43, 0x50, 0x45, 0xC5, 0xC4]

  function Ordinal(t: FrameType): (r: nat)
    ensures r < |FRAME_TYPES| && FRAME_TYPES[r] == t
  {
    match t
    case Invalid => 0
    case Acknowledge => 1
    case Data => 2
    case Binary => 3
    case Control => 4
    case Prompt => 5
    case Error => 6
    case Async => 7
    case Async2 => 8
    case AsyncOther => 9
  }

  /** The position of a byte among the type bytes, or -1. */
  function TypeIndex(b: byte): (r: int)
    ensures -1 <= r < |FRAME_TYPE_BYTES|
    ensures r >= 0 ==> FRAME_TYPE_BYTES[r] == b
    ensures r < 0 ==> b !in FRAME_TYPE_BYTES
  {
    if b == 0 then 0
    else if b == 0x41 then 1
    else if b == 0x44 then 2
    else if b == 0x42 then 3
    else if b == 0x43 then 4
    else if b == 0x50 then 5
    else if b == 0x45 then 6
    else if b == 0xC5 then 7
    else if b == 0xC4 then 8
    else -1
  }

  function Short(s: seq<byte>, index: nat): int
    requires index + 2 <= |s|
  {
    Signed(s[index..index + 2])
  }

  function Zeros(n: nat): (r: seq<byte>)
    ensures |r| == n
    ensures forall i :: 0 <= i < n ==> r[i] == 0
  {
    seq(n, i => 0)
  }

  // ---------- the decoder's state ----------

  datatype Phase = Waiting | Header | Payload

  /** A message passed to the callback. */
  datatype Message = Message(frameType: FrameType, text: seq<byte>, id: int)

  /** The decoder's fields.  `listener` tells whether a callback is installed. */
  datatype DecoderFields = Decoder(
    listener: bool,
    phase: Phase,
    frameType: FrameType,
    header: seq<byte>,
    lastByte: byte,
    buffIdx: int,
    totalIdx: int,
    expectedLen: int,
    package: int,
    packages: int,
    frame: Option<seq<byte>>,
    total: Option<seq<byte>>)
  {
    predicate Valid() {
      && |header| == HEADER_LENGTH
      && (phase == Header ==> 2 <= buffIdx < HEADER_LENGTH)
      && 0 <= buffIdx
      && 0 <= totalIdx <= (if total.Some? then |total.value| else 0)
    }
  }

  function NewDecoder(listener: bool): (d: DecoderFields)
    ensures d.Valid() && d.phase == Waiting
  {
    Decoder(listener, Waiting, Invalid, Zeros(HEADER_LENGTH), 0, 0, 0, 0, 0, 0, None, None)
  }

  type Decoder = d: DecoderFields | d.Valid() witness NewDecoder(true)

  // ---------- one byte ----------

  function Step(d: Decoder, b: byte): (r: (Decoder, Outcome<Message>))
    ensures r.0.listener == d.listener
  {
    match d.phase
    case Waiting =>
      if b == SERIAL_BYTES[0] then
        (d.(header := d.header[0 := d.lastByte][1 := b], buffIdx := 2, phase := Header, lastByte := b), Quiet)
      else
        (d.(lastByte := b), Quiet)
    case Header =>
      var d1 := d.(header := d.header[d.buffIdx := b], buffIdx := d.buffIdx + 1,
                   phase := if d.buffIdx + 1 == HEADER_LENGTH then Payload else Header);
      if d1.buffIdx < HEADER_LENGTH then (d1.(lastByte := b), Quiet) else HeaderDone(d1, b)
    case Payload =>
      var d1 := d.(buffIdx := d.buffIdx + 1);
      if d.frame.None? || d.buffIdx >= |d.frame.value| then
        (d1, Fault)
      else
        var d2 := d1.(frame := Some(d.frame.value[d.buffIdx := b]));
        if d2.buffIdx < d2.expectedLen || d2.expectedLen < d2.buffIdx then (d2.(lastByte := b), Quiet)
        else FrameDone(d2, b)
  }

  /** The serial number and the type byte are as they should be. */
  predicate HeaderOk(header: seq<byte>)
    requires |header| == HEADER_LENGTH
  {
    header[1..5] == SERIAL_BYTES && TypeIndex(header[0]) > 0
  }

  /** All 19 header bytes are there. */
  function HeaderDone(d: Decoder, b: byte): (r: (Decoder, Outcome<Message>))
    requires d.phase == Payload && d.buffIdx == HEADER_LENGTH
    ensures r.0.listener == d.listener
  {
    if !HeaderOk(d.header) then
      (d.(phase := Waiting, buffIdx := 0), Quiet)
    else
      OpenFrame(d.(frameType := FRAME_TYPES[TypeIndex(d.header[0])],
                   expectedLen := Short(d.header, 5),
                   package := Short(d.header, 15),
                   packages := Short(d.header, 17)), b)
  }

  /** The header is good: the buffers are set up. */
  function OpenFrame(d: Decoder, b: byte): (r: (Decoder, Outcome<Message>))
    requires d.phase == Payload && d.buffIdx == HEADER_LENGTH
    ensures r.0.listener == d.listener
  {
    if d.expectedLen == 0 then
      (d.(phase := Waiting, buffIdx := 0), Quiet)
    else if d.expectedLen < 0 then
      (d, Fault)
    else
      var d1 := d.(frame := Some(Zeros(d.expectedLen)));
      if d1.package == 1 && d1.packages < 0 then
        (d1, Fault)
      else
        var d2 := if d1.package == 1 then d1.(total := Some(Zeros(d1.packages * PACKAGE_SIZE)), totalIdx := 0) else d1;
        if d2.expectedLen < HEADER_LENGTH then
          (d2, Fault)
        else
          (d2.(frame := Some(d.header + Zeros(d2.expectedLen - HEADER_LENGTH)), lastByte := b), Quiet)
  }

  function Abandon(d: Decoder): Decoder {
    d.(frameType := Invalid, phase := Waiting, buffIdx := 0, totalIdx := 0)
  }

  /** The checksum field of a frame agrees with the rest. */
  predicate CrcOk(frame: seq<byte>) {
    |frame| >= 2 && Crc16(frame[..|frame| - 2]) == frame[|frame| - 2] as int + 0x100 * (frame[|frame| - 1] as int)
  }

  /** The frame has all its bytes. */
  function FrameDone(d: Decoder, b: byte): (r: (Decoder, Outcome<Message>))
    requires d.phase == Payload && d.frame.Some? && 0 < d.buffIdx == d.expectedLen <= |d.frame.value|
    ensures r.0.listener == d.listener && !r.1.Fault?
  {
    var frame := d.frame.value[..d.expectedLen];
    if d.expectedLen < 2 then
      (d, Quiet)
    else if !CrcOk(frame) then
      (Abandon(d), Quiet)
    else
      AddPayload(d, b)
  }

  /** The frame is good: its payload joins the message. */
  function AddPayload(d: Decoder, b: byte): (r: (Decoder, Outcome<Message>))
    requires d.phase == Payload && d.frame.Some? && 2 <= d.buffIdx == d.expectedLen <= |d.frame.value|
    ensures r.0.listener == d.listener && !r.1.Fault?
  {
    var len := d.expectedLen - HEADER_LENGTH - 3;
    if d.total.None? || len < 0 || d.totalIdx + len > |d.total.value| then
      (Abandon(d), Quiet)
    else
      var payload := d.frame.value[HEADER_LENGTH..HEADER_LENGTH + len];
      var total := d.total.value[..d.totalIdx] + payload + d.total.value[d.totalIdx + len..];
      var d1 := d.(total := Some(total), totalIdx := d.totalIdx + len, phase := Waiting, buffIdx := 0, lastByte := b);
      if d.package == d.packages && d.listener then
        (d1.(total := None, totalIdx := 0), Delivered(Message(d.frameType, total[..d.totalIdx + len], Short(d.header, 11))))
      else
        (d1, Quiet)
  }

  // ---------- a string of bytes ----------

  function Decode(d: Decoder, s: seq<byte>): Run<Decoder, Message> {
    RunAll(Step, d, s)
  }
}
