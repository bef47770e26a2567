/** The frames this program sends, and that the decoder reads back what was sent. */
module Encoding {
  import opened Assembly
  import opened BitConverter
  import opened Crc
  import opened FrameRuns
  import opened Frames
  import opened Runs

  const LINE_FEED: byte := 0x0A

  /** Java's narrowing of an int to a short. */
  function ToShort(x: int): (r: int)
    ensures -0x8000 <= r < 0x8000 && (r - x) % 0x1_0000 == 0
  {
    (x + 0x8000) % 0x1_0000 - 0x8000
  }

  /** The length of a message of n bytes, computed in shorts. */
  function TotalLength(n: nat): int {
    ToShort(ToShort(n + HEADER_LENGTH + 1) + 2)
  }

  /** It is right exactly when it does not overflow; otherwise it is negative or leaves too
      little room for the message, so that the program fails when it makes the array or when
      it copies. */
  lemma LengthFits(n: nat)
    ensures TotalLength(n) == n + HEADER_LENGTH + 3 <==> n + HEADER_LENGTH + 3 < 0x8000
    ensures n + HEADER_LENGTH + 3 >= 0x8000 ==> TotalLength(n) < 0 || TotalLength(n) < HEADER_LENGTH + n
  {}

  /** Either happens: the first overflow gives a negative length, a longer message a small
      one. */
  lemma LengthFailsBothWays()
    ensures TotalLength(0x7FEA) < 0 && TotalLength(0x1_0000) == HEADER_LENGTH + 3
  {}

  /** The header of a frame that is a whole message: package 1 of 1. */
  function HeaderBytes(t: FrameType, length: int, id: int): (r: seq<byte>)
    requires Ordinal(t) < |FRAME_TYPE_BYTES|
    ensures |r| == HEADER_LENGTH
  {
    [FRAME_TYPE_BYTES[Ordinal(t)]] + SERIAL_BYTES + LittleEndian(length, 2) + LittleEndian(id, 4) +
    LittleEndian(0, 4) + LittleEndian(1, 2) + LittleEndian(1, 2)
  }

  /** Everything the checksum covers. */
  function Body(t: FrameType, text: seq<byte>, id: int): (r: seq<byte>)
    requires Ordinal(t) < |FRAME_TYPE_BYTES|
    ensures |r| == HEADER_LENGTH + |text| + 2
  {
    HeaderBytes(t, |text| + HEADER_LENGTH + 4, id) + text + [LINE_FEED] + [0]
  }

  /** The encoder's limit: the length has to fit the header's short, and the type needs a
      type byte; the program leaves with an exception otherwise. */
  predicate Sendable(t: FrameType, text: seq<byte>) {
    Ordinal(t) < |FRAME_TYPE_BYTES| && |text| + HEADER_LENGTH + 4 < 0x8000
  }

  /** Which are exactly the messages whose length, computed in shorts and with the line feed, is
      right. */
  lemma SendableIff(t: FrameType, text: seq<byte>)
    ensures Sendable(t, text) <==> t != AsyncOther && TotalLength(|text| + 1) == |text| + 1 + 19 + 3
  {
    LengthFits(|text| + 1);
    hide ToShort;
  }

  /** The frame for a message. */
  function Encode(t: FrameType, text: seq<byte>, id: int): seq<byte>
    requires Sendable(t, text)
  {
    Body(t, text, id) + LittleEndian(Crc16(Body(t, text, id)), 2)
  }

  lemma ShortOf(x: int)
    requires 0 <= x < 0x8000
    ensures Signed(LittleEndian(x, 2)) == x
  {
    PowersOf256();
    RoundTrip(x, 2);
  }

  lemma HeaderPieces(
    a: seq<byte>, b: seq<byte>, c: seq<byte>, d: seq<byte>, e: seq<byte>, f: seq<byte>, g: seq<byte>)
    requires |a| == 1 && |b| == |d| == |e| == 4 && |c| == |f| == |g| == 2
    ensures var h := a + b + c + d + e + f + g;
      h[0] == a[0] && h[1..5] == b && h[5..7] == c && h[7..11] == d && h[11..15] == e && h[15..17] == f && h[17..19] == g
  {}

  lemma IdIsThere(id: int)
    ensures Fits(id, 4) ==> Signed(LittleEndian(id, 4)) == id
    ensures LittleEndian(0, 4) == [0, 0, 0, 0]
  {
    if Fits(id, 4) {
      RoundTrip(id, 4);
    }
    assert LittleEndian(0, 1) == [0] && LittleEndian(0, 2) == [0, 0] && LittleEndian(0, 3) == [0, 0, 0];
  }

  lemma HeaderFields(t: FrameType, length: int, id: int)
    requires Ordinal(t) < |FRAME_TYPE_BYTES| && 0 <= length < 0x8000
    ensures var h := HeaderBytes(t, length, id);
      && h[0] == FRAME_TYPE_BYTES[Ordinal(t)] && h[1..5] == SERIAL_BYTES
      && Short(h, 5) == length && Short(h, 11) == 0 && Short(h, 15) == 1 && Short(h, 17) == 1
      && (Fits(id, 4) ==> Signed(h[7..11]) == id) && h[11..15] == [0, 0, 0, 0]
  {
    IdIsThere(id);
    ShortOf(length);
    ShortOf(0);
    ShortOf(1);
    LittleEndianSplits(0, 2, 2);
    assert LittleEndian(0, 4)[..2] == LittleEndian(0, 2);
    var h := HeaderBytes(t, length, id);
    assert h[11..13] == h[11..15][..2];
    hide LittleEndian, Signed, Fits;
    HeaderPieces([FRAME_TYPE_BYTES[Ordinal(t)]], SERIAL_BYTES, LittleEndian(length, 2), LittleEndian(id, 4),
                 LittleEndian(0, 4), LittleEndian(1, 2), LittleEndian(1, 2));
  }

  lemma TypeIndexOfTypeByte(t: FrameType)
    requires Ordinal(t) < |FRAME_TYPE_BYTES|
    ensures TypeIndex(FRAME_TYPE_BYTES[Ordinal(t)]) == Ordinal(t)
  {}

  lemma CrcFieldValue(x: nat)
    requires x < 0x1_0000
    ensures var s := LittleEndian(x, 2); x == s[0] as int + 0x100 * (s[1] as int)
  {
    UnsignedOfLittleEndian(x, 2);
    UnsignedOfTwo(LittleEndian(x, 2));
    PowersOf256();
  }

  lemma EncodedCrc(t: FrameType, text: seq<byte>, id: int)
    requires Sendable(t, text)
    ensures CrcOk(Encode(t, text, id))
  {
    var body := Body(t, text, id);
    CrcFieldValue(Crc16(body));
    hide Crc16, LittleEndian, Body;
    var f := Encode(t, text, id);
    assert f[..|f| - 2] == body;
    assert f[|f| - 2..] == LittleEndian(Crc16(body), 2);
  }

  lemma EncodedHeader(t: FrameType, text: seq<byte>, id: int)
    requires Sendable(t, text)
    ensures var f := Encode(t, text, id);
      && |f| == |text| + HEADER_LENGTH + 4
      && f[0] == FRAME_TYPE_BYTES[Ordinal(t)] && f[1..5] == SERIAL_BYTES
      && Short(f, 5) == |f| && Short(f, 11) == 0 && Short(f, 15) == 1 && Short(f, 17) == 1
      && (Fits(id, 4) ==> Signed(f[7..11]) == id) && f[11..15] == [0, 0, 0, 0]
      && f[HEADER_LENGTH..|f| - 3] == text + [LINE_FEED]
  {
    hide Crc16, LittleEndian, HeaderBytes, Short, Signed, Fits;
    var f := Encode(t, text, id);
    var h := HeaderBytes(t, |f|, id);
    HeaderFields(t, |f|, id);
    assert f[..HEADER_LENGTH] == h;
    assert f[1..5] == h[1..5] && f[7..11] == h[7..11] && f[11..15] == h[11..15];
    HeaderShorts(f, 5);
    HeaderShorts(f, 11);
    HeaderShorts(f, 15);
    HeaderShorts(f, 17);
  }

  const SERIAL_NUMBER := 0x7e81_18e7

  lemma SerialNumberIs()
    ensures Signed(SERIAL_BYTES) == SERIAL_NUMBER
  {
    PowersOf256();
    var b := SERIAL_BYTES;
    assert b[1..][1..][1..][1..] == [];
    assert Unsigned(b[1..][1..][1..]) == 0x7E && Unsigned(b[1..][1..]) == 0x7E81 && Unsigned(b[1..]) == 0x7E8118;
  }

  /** What the encoder writes is a frame, its checksum is right, and its fields are those of a
      complete message: the id is in bytes 7 to 10, and nothing is where the decoder looks for
      one.  Type INVALID_FRAME is the exception: its type byte is zero, which the decoder
      refuses. */
  lemma EncodedFields(t: FrameType, text: seq<byte>, id: int)
    requires Sendable(t, text)
    ensures var f := Encode(t, text, id);
      && CrcOk(f) && |f| == |text| + HEADER_LENGTH + 4
      && (Framed(f) <==> t != Invalid)
      && (Framed(f) ==> PackageOf(f) == 1 && PackagesOf(f) == 1 && PayloadOf(f) == text + [0x0A]
                        && forall s :: MessageOf(f, s) == Message(t, s, 0))
      && (t == Data ==> f[0] == 0x44)
      && Signed(f[1..5]) == SERIAL_NUMBER && (Fits(id, 4) ==> Signed(f[7..11]) == id) && f[11..15] == [0, 0, 0, 0]
  {
    SerialNumberIs();
    hide Crc16, CrcOk, Encode, Short, Signed, Fits;
    EncodedCrc(t, text, id);
    EncodedHeader(t, text, id);
    TypeIndexOfTypeByte(t);
  }

  /** Commands with different ids are different on the wire, whatever else is in them. */
  lemma IdsStayApart(t: FrameType, text: seq<byte>, id: int, u: FrameType, other: seq<byte>, otherId: int)
    requires Sendable(t, text) && Sendable(u, other) && Fits(id, 4) && Fits(otherId, 4) && id != otherId
    ensures Encode(t, text, id) != Encode(u, other, otherId)
  {
    hide Encode, Framed, CrcOk, Signed, Fits;
    EncodedFields(t, text, id);
    EncodedFields(u, other, otherId);
  }

  // ---------- sending and receiving ----------

  /** Noise on the line, then a message. */
  datatype Sent = Sent(noise: seq<byte>, frameType: FrameType, text: seq<byte>, id: int)

  ghost predicate CanSend(s: Sent) {
    s.frameType != Invalid && Sendable(s.frameType, s.text) && NoiseAnywhere(s.noise)
  }

  ghost predicate CanSendAll(sent: seq<Sent>) {
    forall i :: 0 <= i < |sent| ==> CanSend(sent[i])
  }

  function Bytes(s: Sent): seq<byte>
    requires CanSend(s)
  {
    s.noise + Encode(s.frameType, s.text, s.id)
  }

  function Line(sent: seq<Sent>): seq<byte>
    requires CanSendAll(sent)
  {
    if sent == [] then [] else Bytes(sent[0]) + Line(sent[1..])
  }

  /** A message short enough for one package arrives, with its line feed and without its
      id. */
  function Arrival(s: Sent): seq<Message> {
    if |s.text| < PACKAGE_SIZE then [Message(s.frameType, s.text + [LINE_FEED], 0)] else []
  }

  function Arrivals(sent: seq<Sent>): seq<Message> {
    if sent == [] then [] else Arrival(sent[0]) + Arrivals(sent[1..])
  }

  lemma TakeEncoded(a: Assembly, s: Sent)
    requires CanSend(s)
    ensures Reports(Take(a, Encode(s.frameType, s.text, s.id)).1) == Arrival(s)
  {
    hide CrcOk, Encode;
    EncodedFields(s.frameType, s.text, s.id);
    assert [] + (s.text + [LINE_FEED]) == s.text + [LINE_FEED];
  }

  /** The decoder after noise and one encoded message. */
  lemma ReceiveOne(d: Decoder, s: Sent)
    requires d.listener && d.phase == Waiting && CanSend(s)
    ensures var r := Decode(d, Bytes(s));
      !r.faulted && r.state.phase == Waiting && r.state.listener && r.out == Arrival(s)
  {
    hide Step, Encode;
    var f := Encode(s.frameType, s.text, s.id);
    EncodedFields(s.frameType, s.text, s.id);
    RunAppend<Decoder, byte, Message>(Step, d, s.noise, f);
    assert Noise(d.lastByte, s.noise);
    DecodeNoise(d, s.noise);
    var d1 := Decode(d, s.noise).state;
    FrameRefines(d1, f);
    TakeEncoded(View(d1), s);
  }

  /** Round trip over whole streams: whatever is sent, with any noise in between, arrives once
      each, in order, unless it is too long for one package; what is too long is lost without
      disturbing the rest. */
  lemma {:induction false} RoundTripOverLine(d: Decoder, sent: seq<Sent>)
    requires d.listener && d.phase == Waiting && CanSendAll(sent)
    ensures var r := Decode(d, Line(sent));
      !r.faulted && r.state.phase == Waiting && r.out == Arrivals(sent)
    decreases |sent|
  {
    hide Step, Bytes;
    if sent != [] {
      var first := Bytes(sent[0]);
      ReceiveOne(d, sent[0]);
      RunAppend<Decoder, byte, Message>(Step, d, first, Line(sent[1..]));
      RoundTripOverLine(Decode(d, first).state, sent[1..]);
    }
  }
}
