/** The encoder and the decoder as the program has them: buffers filled in place and fields
    changed byte by byte.  Each method is proved against the functions on values. */
module MessageUtils {
  import opened Options
  import opened BitConverter
  import opened Crc
  import opened Encoding
  import opened Frames
  import opened Runs

  /** The library's array copy, within bounds and between different arrays. */
  method ArrayCopy(src: array<byte>, srcPos: nat, dst: array<byte>, dstPos: nat, length: nat)
    requires src != dst && srcPos + length <= src.Length && dstPos + length <= dst.Length
    modifies dst
    ensures dst[..] == old(dst[..dstPos]) + src[srcPos..srcPos + length] + old(dst[dstPos + length..])
  {
    var i := 0;
    while i < length
      invariant 0 <= i <= length
      invariant forall k :: 0 <= k < dst.Length ==>
        dst[k] == if dstPos <= k < dstPos + i then src[srcPos + k - dstPos] else old(dst[k])
    {
      dst[dstPos + i] := src[srcPos + i];
      i := i + 1;
    }
  }

  class MCJMessageUtils {
    /** Is a callback installed? */
    const listener: bool
    const headerBytes: array<byte>
    var currFrameType: FrameType
    var decoderPhase: Phase
    var lastByte: byte
    var buffIdx: int
    var totalMessageIdx: int
    var expectedDataLen: int
    var currPackage: int
    var expectedPackages: int
    var frameBuffer: array?<byte>
    var totalMessage: array?<byte>

    ghost function Repr(): set<object>
      reads this
    {
      {this, headerBytes} + (if frameBuffer == null then {} else {frameBuffer}) +
      (if totalMessage == null then {} else {totalMessage})
    }

    /** The fields as a value. */
    ghost function Fields(): DecoderFields
      reads Repr()
    {
      Decoder(listener, decoderPhase, currFrameType, headerBytes[..], lastByte, buffIdx, totalMessageIdx,
              expectedDataLen, currPackage, expectedPackages,
              if frameBuffer == null then None else Some(frameBuffer[..]),
              if totalMessage == null then None else Some(totalMessage[..]))
    }

    ghost predicate Valid()
      reads Repr()
    {
      && Fields().Valid()
      && frameBuffer != headerBytes && totalMessage != headerBytes
      && (frameBuffer != null ==> frameBuffer != totalMessage)
    }

    constructor (listener: bool)
      ensures Valid() && fresh(Repr()) && Fields() == NewDecoder(listener)
    {
      this.listener := listener;
      headerBytes := new byte[HEADER_LENGTH](_ => 0);
      currFrameType := Invalid;
      decoderPhase := Waiting;
      lastByte, buffIdx, totalMessageIdx := 0, 0, 0;
      expectedDataLen, currPackage, expectedPackages := 0, 0, 0;
      frameBuffer, totalMessage := null, null;
    }

    /** Wraps a line of text in a frame.  `None` is the exception the program leaves with
        when the type has no type byte or the length does not fit a short: a negative
        array size, or a copy past the end of an array. */
    method MakeMessage(frameType: FrameType, text: seq<byte>, id: int) returns (r: Option<array<byte>>)
      ensures r.Some? <==> Sendable(frameType, text)
      ensures r.Some? ==> fresh(r.value) && r.value[..] == Encode(frameType, text, id)
    {
      hide ToShort, LittleEndian, HeaderBytes, Crc16, Ordinal;
      var msg := text + [LINE_FEED];
      var msgBytes := new byte[|msg|](i requires 0 <= i < |msg| => msg[i]);
      LengthFits(|msg|);
      var useCount := ToShort(msgBytes.Length + HEADER_LENGTH + 1);
      var totLen := ToShort(useCount + 2);
      if totLen < 0 {
        return None;
      }
      var outBuff := new byte[totLen](_ => 0);
      if Ordinal(frameType) >= |FRAME_TYPE_BYTES| || totLen < msgBytes.Length + HEADER_LENGTH + 3 {
        return None;
      }
      assert msgBytes[..] == msg && outBuff[HEADER_LENGTH..] == Zeros(totLen - HEADER_LENGTH);
      FillHeader(outBuff, frameType, totLen, id);
      FillBody(outBuff, msgBytes, useCount);
      assert outBuff[..useCount] == Body(frameType, text, id);
      Seal(outBuff, useCount);
      r := Some(outBuff);
    }

    /** Copies the first n bytes of a conversion's result; `keep` marks a later part of
        the buffer whose staying as it is matters. */
    method Put(outBuff: array<byte>, pos: nat, part: array<byte>, n: nat, ghost keep: nat)
      requires outBuff != part && n <= part.Length && pos + n <= keep <= outBuff.Length
      modifies outBuff
      ensures outBuff[..pos + n] == old(outBuff[..pos]) + part[..n]
      ensures outBuff[keep..] == old(outBuff[keep..])
    {
      ArrayCopy(part, 0, outBuff, pos, n);
      assert outBuff[..pos + n] == outBuff[..][..pos + n];
      assert outBuff[keep..] == outBuff[..][keep..];
    }

    method FillHeader(outBuff: array<byte>, frameType: FrameType, totLen: int, id: int)
      requires outBuff.Length == totLen >= HEADER_LENGTH && Ordinal(frameType) < |FRAME_TYPE_BYTES|
      modifies outBuff
      ensures outBuff[..HEADER_LENGTH] == HeaderBytes(frameType, totLen, id)
      ensures outBuff[HEADER_LENGTH..] == old(outBuff[HEADER_LENGTH..])
    {
      hide LittleEndian;
      var typeByte := FRAME_TYPE_BYTES[Ordinal(frameType)];
      outBuff[0] := typeByte;
      assert outBuff[..1] == [typeByte];
      var serNum := new byte[4](i requires 0 <= i < 4 => SERIAL_BYTES[i]);
      assert serNum[..4] == SERIAL_BYTES;
      Put(outBuff, 1, serNum, 4, HEADER_LENGTH);
      var part := GetBytesShort(totLen);
      assert part[..2] == part[..];
      Put(outBuff, 5, part, 2, HEADER_LENGTH);
      part := GetBytesInt(id);
      assert part[..4] == part[..];
      Put(outBuff, 7, part, 4, HEADER_LENGTH);
      part := GetBytesInt(0);
      assert part[..4] == part[..];
      Put(outBuff, 11, part, 4, HEADER_LENGTH);
      part := GetBytesShort(1);
      assert part[..2] == part[..];
      Put(outBuff, 15, part, 2, HEADER_LENGTH);
      Put(outBuff, 17, part, 2, HEADER_LENGTH);
    }

    /** The payload, then a zero in the first byte of the checksum field; the byte before
        it is zero from the start. */
    method FillBody(outBuff: array<byte>, msgBytes: array<byte>, useCount: int)
      requires outBuff != msgBytes && outBuff.Length == useCount + 2 == msgBytes.Length + HEADER_LENGTH + 3
      requires outBuff[HEADER_LENGTH..] == Zeros(outBuff.Length - HEADER_LENGTH)
      modifies outBuff
      ensures outBuff[..useCount] == old(outBuff[..HEADER_LENGTH]) + msgBytes[..] + [0]
    {
      ghost var was := outBuff[..];
      assert outBuff[HEADER_LENGTH..][msgBytes.Length] == 0;
      ArrayCopy(msgBytes, 0, outBuff, HEADER_LENGTH, msgBytes.Length);
      outBuff[HEADER_LENGTH + msgBytes.Length + 1] := 0;
      assert msgBytes[0..msgBytes.Length] == msgBytes[..];
    }

    /** The checksum goes over the last two bytes, low byte first. */
    method Seal(outBuff: array<byte>, useCount: int)
      requires 0 <= useCount && outBuff.Length == useCount + 2
      modifies outBuff
      ensures outBuff[..] == old(outBuff[..useCount]) + LittleEndian(Crc16(old(outBuff[..useCount])), 2)
    {
      hide Crc16;
      var crc := MakeCrc(outBuff, useCount);
      var bytes := GetBytesInt(crc);
      LittleEndianSplits(crc, 2, 2);
      hide LittleEndian;
      assert bytes[..2] == bytes[..][..2];
      ArrayCopy(bytes, 0, outBuff, outBuff.Length - 2, 2);
    }

    /** Takes one byte.  The outcome is the callback made, or the exception that leaves the
        method. */
    method DecodeMessage(inByte: byte) returns (outcome: Outcome<Message>)
      requires Valid()
      modifies Repr()
      ensures Valid() && fresh(Repr() - old(Repr()))
      ensures (Fields(), outcome) == Step(old(Fields()), inByte)
    {
      hide Step;
      match decoderPhase
      case Waiting => outcome := OnWaiting(inByte);
      case Header => outcome := OnHeader(inByte);
      case Payload => outcome := OnPayload(inByte);
    }

    method OnWaiting(inByte: byte) returns (outcome: Outcome<Message>)
      requires Valid() && decoderPhase == Waiting
      modifies Repr()
      ensures Valid() && Repr() == old(Repr())
      ensures (Fields(), outcome) == Step(old(Fields()), inByte)
    {
      hide HeaderDone, FrameDone;
      if inByte == SERIAL_BYTES[0] {
        headerBytes[0] := lastByte;
        headerBytes[1] := inByte;
        buffIdx := 2;
        decoderPhase := Header;
      }
      lastByte := inByte;
      outcome := Quiet;
    }

    method OnHeader(inByte: byte) returns (outcome: Outcome<Message>)
      requires Valid() && decoderPhase == Header
      modifies Repr()
      ensures Valid() && fresh(Repr() - old(Repr()))
      ensures (Fields(), outcome) == Step(old(Fields()), inByte)
    {
      hide HeaderDone, FrameDone;
      headerBytes[buffIdx] := inByte;
      buffIdx := buffIdx + 1;
      if buffIdx == HEADER_LENGTH {
        decoderPhase := Payload;
        outcome := CheckHeader(inByte);
      } else {
        lastByte := inByte;
        outcome := Quiet;
      }
    }

    method OnPayload(inByte: byte) returns (outcome: Outcome<Message>)
      requires Valid() && decoderPhase == Payload
      modifies Repr()
      ensures Valid() && fresh(Repr() - old(Repr()))
      ensures (Fields(), outcome) == Step(old(Fields()), inByte)
    {
      hide HeaderDone, FrameDone;
      if frameBuffer == null || buffIdx >= frameBuffer.Length {
        buffIdx := buffIdx + 1;
        return Fault;
      }
      frameBuffer[buffIdx] := inByte;
      buffIdx := buffIdx + 1;
      if buffIdx == expectedDataLen {
        outcome := CheckFrame(inByte);
      } else {
        lastByte := inByte;
        outcome := Quiet;
      }
    }

    /** What the full header leads to. */
    method CheckHeader(inByte: byte) returns (outcome: Outcome<Message>)
      requires Valid() && decoderPhase == Payload && buffIdx == HEADER_LENGTH
      modifies Repr()
      ensures Valid() && fresh(Repr() - old(Repr()))
      ensures (Fields(), outcome) == HeaderDone(old(Fields()), inByte)
    {
      hide HeaderOk, OpenFrame, Short;
      var frameOk, ftIdx := HeaderIsGood();
      if !frameOk {
        decoderPhase := Waiting;
        buffIdx := 0;
        return Quiet;
      }
      currFrameType := FRAME_TYPES[ftIdx];
      expectedDataLen := ReadShort(5);
      currPackage := ReadShort(15);
      expectedPackages := ReadShort(17);
      outcome := SetUpBuffers(inByte);
    }

    /** The serial number and the type byte are as they should be. */
    method HeaderIsGood() returns (frameOk: bool, ftIdx: int)
      requires headerBytes.Length == HEADER_LENGTH
      ensures frameOk == HeaderOk(headerBytes[..])
      ensures ftIdx == TypeIndex(headerBytes[0]) && (frameOk ==> ftIdx > 0)
    {
      frameOk := headerBytes[1] == SERIAL_BYTES[0] && headerBytes[2] == SERIAL_BYTES[1] &&
                 headerBytes[3] == SERIAL_BYTES[2] && headerBytes[4] == SERIAL_BYTES[3];
      assert headerBytes[..][1..5] == [headerBytes[1], headerBytes[2], headerBytes[3], headerBytes[4]];
      ftIdx := TypeIndex(headerBytes[0]);
      frameOk := frameOk && ftIdx > 0;
    }

    /** What a header that has passed the check leads to. */
    method SetUpBuffers(inByte: byte) returns (outcome: Outcome<Message>)
      requires Valid() && decoderPhase == Payload && buffIdx == HEADER_LENGTH
      modifies Repr()
      ensures Valid() && fresh(Repr() - old(Repr()))
      ensures (Fields(), outcome) == OpenFrame(old(Fields()), inByte)
    {
      hide Zeros;
      if expectedDataLen == 0 {
        decoderPhase := Waiting;
        buffIdx := 0;
        return Quiet;
      }
      if expectedDataLen < 0 {
        return Fault;
      }
      NewFrameBuffer();
      if currPackage == 1 {
        if expectedPackages < 0 {
          return Fault;
        }
        NewTotalMessage();
      }
      if expectedDataLen < HEADER_LENGTH {
        return Fault;
      }
      StoreHeader();
      lastByte := inByte;
      return Quiet;
    }

    method NewFrameBuffer()
      requires Valid() && expectedDataLen >= 0
      modifies this`frameBuffer
      ensures Valid() && fresh(Repr() - old(Repr()))
      ensures Fields() == old(Fields()).(frame := Some(Zeros(expectedDataLen)))
    {
      frameBuffer := new byte[expectedDataLen](_ => 0);
      assert frameBuffer[..] == Zeros(expectedDataLen);
    }

    method NewTotalMessage()
      requires Valid() && expectedPackages >= 0
      modifies this`totalMessage, this`totalMessageIdx
      ensures Valid() && fresh(Repr() - old(Repr()))
      ensures Fields() == old(Fields()).(total := Some(Zeros(expectedPackages * PACKAGE_SIZE)), totalIdx := 0)
    {
      totalMessage := new byte[expectedPackages * PACKAGE_SIZE](_ => 0);
      assert totalMessage[..] == Zeros(expectedPackages * PACKAGE_SIZE);
      totalMessageIdx := 0;
    }

    method StoreHeader()
      requires Valid() && frameBuffer != null && frameBuffer.Length >= HEADER_LENGTH
      requires frameBuffer[..] == Zeros(frameBuffer.Length)
      requires decoderPhase == Payload
      modifies this`buffIdx, frameBuffer
      ensures Valid() && Repr() == old(Repr())
      ensures Fields() == old(Fields()).(
        frame := Some(headerBytes[..] + Zeros(frameBuffer.Length - HEADER_LENGTH)), buffIdx := HEADER_LENGTH)
    {
      ArrayCopy(headerBytes, 0, frameBuffer, 0, HEADER_LENGTH);
      assert frameBuffer[..] == headerBytes[..] + Zeros(frameBuffer.Length - HEADER_LENGTH);
      buffIdx := HEADER_LENGTH;
    }

    /** Two bytes of the header; its length makes the converter's error impossible. */
    method ReadShort(index: nat) returns (r: int)
      requires headerBytes.Length == HEADER_LENGTH && index + 2 <= HEADER_LENGTH
      ensures r == Short(headerBytes[..], index)
    {
      var x := ToInt16(headerBytes, index);
      assert headerBytes[..][index..index + 2] == headerBytes[index..index + 2];
      r := x.value;
    }

    /** What the full frame leads to. */
    method CheckFrame(inByte: byte) returns (outcome: Outcome<Message>)
      requires Valid() && decoderPhase == Payload
      requires frameBuffer != null && 0 < buffIdx == expectedDataLen <= frameBuffer.Length
      modifies Repr()
      ensures Valid() && fresh(Repr() - old(Repr()))
      ensures (Fields(), outcome) == FrameDone(old(Fields()), inByte)
    {
      hide Crc16, AddPayload;
      if expectedDataLen < 2 {
        return Quiet;
      }
      var calcedCrc := MakeCrc(frameBuffer, expectedDataLen - 2);
      var inCrc := frameBuffer[expectedDataLen - 2] as int + 0x100 * (frameBuffer[expectedDataLen - 1] as int);
      ghost var frame := frameBuffer[..][..expectedDataLen];
      assert frame[..|frame| - 2] == frameBuffer[..expectedDataLen - 2];
      if calcedCrc != inCrc {
        assert !CrcOk(frame);
        GiveUp();
        return Quiet;
      }
      assert CrcOk(frame);
      outcome := AppendFrame(inByte);
    }

    /** The payload goes behind those before it. */
    method TakePayload(len: nat)
      requires Valid() && frameBuffer != null && totalMessage != null
      requires HEADER_LENGTH + len <= frameBuffer.Length && totalMessageIdx + len <= totalMessage.Length
      modifies this`totalMessageIdx, totalMessage
      ensures Valid() && Repr() == old(Repr())
      ensures var (d, payload) := (old(Fields()), old(frameBuffer[..])[HEADER_LENGTH..HEADER_LENGTH + len]);
        Fields() == d.(total := Some(d.total.value[..d.totalIdx] + payload + d.total.value[d.totalIdx + len..]),
                       totalIdx := d.totalIdx + len)
    {
      ArrayCopy(frameBuffer, HEADER_LENGTH, totalMessage, totalMessageIdx, len);
      assert frameBuffer[HEADER_LENGTH..HEADER_LENGTH + len] == frameBuffer[..][HEADER_LENGTH..HEADER_LENGTH + len];
      totalMessageIdx := totalMessageIdx + len;
    }

    /** The message is complete. */
    method Deliver() returns (outcome: Outcome<Message>)
      requires Valid() && totalMessage != null
      modifies this`totalMessage, this`totalMessageIdx
      ensures Valid() && Repr() <= old(Repr())
      ensures var d := old(Fields());
        && Fields() == d.(total := None, totalIdx := 0)
        && outcome == Delivered(Message(d.frameType, d.total.value[..d.totalIdx], Short(d.header, 11)))
    {
      hide Short;
      var id := ReadShort(11);
      assert totalMessage[..totalMessageIdx] == totalMessage[..][..totalMessageIdx];
      outcome := Delivered(Message(currFrameType, totalMessage[..totalMessageIdx], id));
      totalMessage := null;
      totalMessageIdx := 0;
    }

    /** What a frame with the right checksum leads to. */
    method AppendFrame(inByte: byte) returns (outcome: Outcome<Message>)
      requires Valid() && decoderPhase == Payload
      requires frameBuffer != null && 2 <= buffIdx == expectedDataLen <= frameBuffer.Length
      modifies Repr()
      ensures Valid() && fresh(Repr() - old(Repr()))
      ensures (Fields(), outcome) == AddPayload(old(Fields()), inByte)
    {
      hide Short;
      var len := expectedDataLen - HEADER_LENGTH - 3;
      if totalMessage == null || len < 0 || totalMessageIdx + len > totalMessage.Length {
        GiveUp();
        return Quiet;
      }
      TakePayload(len);
      outcome := Quiet;
      if currPackage == expectedPackages && listener {
        outcome := Deliver();
      }
      decoderPhase := Waiting;
      buffIdx := 0;
      lastByte := inByte;
    }

    method GiveUp()
      requires Valid()
      modifies this
      ensures frameBuffer == old(frameBuffer) && totalMessage == old(totalMessage)
      ensures Valid() && Fields() == Abandon(old(Fields()))
    {
      currFrameType := Invalid;
      decoderPhase := Waiting;
      buffIdx := 0;
      totalMessageIdx := 0;
    }
  }
}
