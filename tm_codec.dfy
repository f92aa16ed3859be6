/** The Telemetry frame codec: frame creation, which stamps each frame with
    the next value of a module-wide 8-bit master channel counter, encoding
    into a caller buffer and decoding from one. The class TmFrame is the
    caller-owned frame struct; TmFrameGenerator holds the counter that the C
    module keeps in a static variable. */
module TmCodec {
  import opened SdlpCommon
  import opened TmTypes

  // ---------------------------------------------------------------- create

  /** The frame that create builds when the counter stands at `counter`, or
      its error. */
  function TmCreate(counter: bv8, spacecraftId: bv16, virtualChannelId: bv8, payload: seq<bv8>)
    : (r: Result<TmFrameValue>)
    requires |payload| <= 0xFFFF
    ensures r.Ok? <==> |payload| <= TM_MAX_DATA_SIZE
    ensures r.Err? ==> r.error == InvalidParam
    ensures r.Ok? ==> r.value.data == payload && r.value.fecf == 0
    ensures r.Ok? ==> r.value.header.masterChannelFrameCount == counter
    ensures r.Ok? ==> r.value.header.spacecraftId as bv16 == spacecraftId & 0x3FF
    ensures r.Ok? ==> r.value.header.virtualChannelId as bv8 == virtualChannelId & 0x07
    ensures r.Ok? && spacecraftId < 1024 ==> r.value.header.spacecraftId as bv16 == spacecraftId
    ensures r.Ok? && virtualChannelId < 8 ==> r.value.header.virtualChannelId as bv8 == virtualChannelId
    ensures r.Ok? ==> r.value.header.segmentLengthId == 3 && r.value.header.firstHeaderPointer == 0
    ensures r.Ok? ==> r.value.header.version == SDLP_VERSION && r.value.header.ocfFlag == 0
    ensures r.Ok? ==> r.value.header.virtualChannelFrameCount == 0 && r.value.header.dataFieldStatus == 0
    ensures r.Ok? ==> r.value.header.syncFlag == 0 && r.value.header.packetOrderFlag == 0
  {
    if |payload| > TM_MAX_DATA_SIZE then Err(InvalidParam)
    else
      var h := TmHeader(
        SDLP_VERSION,
        (spacecraftId & 0x3FF) as bv10,
        (virtualChannelId & 0x07) as bv3,
        0,
        counter,
        0,
        0,
        0,
        0,
        3,
        0);
      Ok(ZeroTmFrame.(header := h, data := payload))
  }

  /** The value of the counter after a call of create: advanced by one,
      modulo 256, exactly when the call succeeds. */
  function TmCounterAfter(counter: bv8, payload: seq<bv8>): (next: bv8)
    ensures |payload| <= TM_MAX_DATA_SIZE ==> next == counter + 1
    ensures |payload| > TM_MAX_DATA_SIZE ==> next == counter
  {
    if |payload| > TM_MAX_DATA_SIZE then counter else counter + 1
  }

  // ---------------------------------------------------------------- encode

  /** Number of bytes encode writes, and the buffer size it demands. */
  function TmEncodedSize(f: TmFrameValue): (n: nat)
    ensures TM_PRIMARY_HEADER_SIZE + TM_FRAME_ERROR_CONTROL_SIZE <= n
    ensures n <= TM_PRIMARY_HEADER_SIZE + TM_MAX_DATA_SIZE + TM_FRAME_ERROR_CONTROL_SIZE
  {
    TM_PRIMARY_HEADER_SIZE + |f.data| + TM_FRAME_ERROR_CONTROL_SIZE
  }

  /** The 16-bit data field status word as encode assembles it: status in
      bits 14-15, sync flag in bit 13, packet order flag in bit 12, segment
      length id in bits 10-11 and the first header pointer in bits 0-10, so
      bit 10 receives both of the last two. */
  function TmStatusWord(h: TmHeader): bv16 {
    StatusWord(h.dataFieldStatus, h.syncFlag, h.packetOrderFlag, h.segmentLengthId, h.firstHeaderPointer)
  }

  function StatusWord(status: bv16, syncFlag: bv1, packetOrderFlag: bv1, segmentLengthId: bv2, firstHeaderPointer: bv11)
    : bv16
  {
    (status << 14)
      | ((syncFlag as bv16) << 13)
      | ((packetOrderFlag as bv16) << 12)
      | ((segmentLengthId as bv16) << 10)
      | ((firstHeaderPointer as bv16) & 0x7FF)
  }

  /** The six primary header octets. */
  function TmHeaderBytes(h: TmHeader): (r: seq<bv8>)
    ensures |r| == TM_PRIMARY_HEADER_SIZE
    ensures r[0] >> 6 == h.version as bv8 && r[0] & 0x3F == (h.spacecraftId >> 4) as bv8
    ensures r[1] >> 4 == (h.spacecraftId & 0x0F) as bv8
    ensures (r[1] >> 1) & 0x07 == h.virtualChannelId as bv8 && r[1] & 0x01 == h.ocfFlag as bv8
    ensures r[2] == h.masterChannelFrameCount && r[3] == h.virtualChannelFrameCount
    ensures BigEndianWord(r[4], r[5]) == TmStatusWord(h)
  {
    BigEndianRoundTrip(TmStatusWord(h));
    [ ((h.version as bv8) << 6) | ((h.spacecraftId >> 4) & 0x3F) as bv8,
      (((h.spacecraftId & 0x0F) as bv8) << 4) | ((h.virtualChannelId as bv8) << 1) | h.ocfFlag as bv8,
      h.masterChannelFrameCount,
      h.virtualChannelFrameCount,
      HighByte(TmStatusWord(h)),
      LowByte(TmStatusWord(h)) ]
  }

  /** Everything encode writes before the frame error control field. */
  function TmFramePrefix(f: TmFrameValue): (r: seq<bv8>)
    ensures |r| + TM_FRAME_ERROR_CONTROL_SIZE == TmEncodedSize(f)
  {
    TmHeaderBytes(f.header) + f.data
  }

  /** The bytes encode writes: the prefix followed by its checksum. */
  function TmEncode(f: TmFrameValue): (r: seq<bv8>)
    ensures |r| == TmEncodedSize(f)
    ensures HasValidFecf(r)
    ensures r[..|r| - 2] == TmFramePrefix(f)
  {
    var prefix := TmFramePrefix(f);
    var r := prefix + FecfBytes(Crc16(prefix));
    assert r[..|r| - 2] == prefix;
    r
  }

  // ---------------------------------------------------------------- decode

  /** The primary header as decode reads it from the first six octets,
      splitting the status word with the same shifts encode used. */
  function TmParseHeader(b0: bv8, b1: bv8, b2: bv8, b3: bv8, b4: bv8, b5: bv8): TmHeader {
    var w := BigEndianWord(b4, b5);
    TmHeader(
      ((b0 >> 6) & 0x03) as bv2,
      ((((b0 & 0x3F) as bv16) << 4) | ((b1 >> 4) & 0x0F) as bv16) as bv10,
      ((b1 >> 1) & 0x07) as bv3,
      (b1 & 0x01) as bv1,
      b2,
      b3,
      (w >> 14) & 0x03,
      ((w >> 13) & 0x01) as bv1,
      ((w >> 12) & 0x01) as bv1,
      ((w >> 10) & 0x03) as bv2,
      (w & 0x7FF) as bv11)
  }

  /** Encoding the header decode parses gives the six octets back: the
      status word loses nothing, because decode reads bit 10 into both of the
      subfields that encode ORs into it. */
  lemma TmParseHeaderReencodes(b0: bv8, b1: bv8, b2: bv8, b3: bv8, b4: bv8, b5: bv8)
    ensures TmHeaderBytes(TmParseHeader(b0, b1, b2, b3, b4, b5)) == [b0, b1, b2, b3, b4, b5]
  {
    var h := TmParseHeader(b0, b1, b2, b3, b4, b5);
    TmParseIdentificationOctets(h, b0, b1);
    TmParseStatusOctets(h, b4, b5);
  }

  /** A header holding the fields decode reads from octets 0 and 1 encodes
      back to those two octets. */
  lemma TmParseIdentificationOctets(h: TmHeader, b0: bv8, b1: bv8)
    requires h.version == ((b0 >> 6) & 0x03) as bv2
    requires h.spacecraftId == ((((b0 & 0x3F) as bv16) << 4) | ((b1 >> 4) & 0x0F) as bv16) as bv10
    requires h.virtualChannelId == ((b1 >> 1) & 0x07) as bv3 && h.ocfFlag == (b1 & 0x01) as bv1
    ensures TmHeaderBytes(h)[0] == b0 && TmHeaderBytes(h)[1] == b1
  {
    SpacecraftIdSplit(b0, b1);
    OctetFieldsWidened(b0, b1);
    TmParseFirstOctet(h, b0);
    TmParseSecondOctet(h, b1);
  }

  /** Octet 0 is rebuilt from the version and the top six bits of the
      spacecraft id. */
  lemma TmParseFirstOctet(h: TmHeader, b0: bv8)
    requires h.version as bv8 == b0 >> 6 && (h.spacecraftId >> 4) as bv8 == b0 & 0x3F
    ensures TmHeaderBytes(h)[0] == b0
  {
    var e := TmHeaderBytes(h);
    IdentificationFirstOctet(e[0], b0);
  }

  /** Octet 1 is rebuilt from the low nibble of the spacecraft id, the
      virtual channel id and the OCF flag. */
  lemma TmParseSecondOctet(h: TmHeader, b1: bv8)
    requires (h.spacecraftId & 0x0F) as bv8 == b1 >> 4
    requires h.virtualChannelId as bv8 == (b1 >> 1) & 0x07 && h.ocfFlag as bv8 == b1 & 0x01
    ensures TmHeaderBytes(h)[1] == b1
  {
    var e := TmHeaderBytes(h);
    IdentificationSecondOctet(e[1], b1);
  }

  /** A header holding the status subfields decode reads from octets 4 and 5
      encodes back to those two octets. */
  lemma TmParseStatusOctets(h: TmHeader, b4: bv8, b5: bv8)
    requires var w := BigEndianWord(b4, b5);
      && h.dataFieldStatus == (w >> 14) & 0x03
      && h.syncFlag == ((w >> 13) & 0x01) as bv1 && h.packetOrderFlag == ((w >> 12) & 0x01) as bv1
      && h.segmentLengthId == ((w >> 10) & 0x03) as bv2 && h.firstHeaderPointer == (w & 0x7FF) as bv11
    ensures TmHeaderBytes(h)[4] == b4 && TmHeaderBytes(h)[5] == b5
  {
    var w := BigEndianWord(b4, b5);
    StatusWordRebuilt(w);
    BigEndianRoundTrip(w);
  }

  /** The spacecraft id decode assembles from octets 0 and 1 has the low six
      bits of octet 0 as its top bits and the top nibble of octet 1 as its
      low bits. */
  lemma SpacecraftIdSplit(b0: bv8, b1: bv8)
    ensures var id := ((((b0 & 0x3F) as bv16) << 4) | ((b1 >> 4) & 0x0F) as bv16) as bv10;
      (id >> 4) as bv8 == b0 & 0x3F && (id & 0x0F) as bv8 == b1 >> 4
  {
  }

  /** The narrow fields decode extracts from octets 0 and 1, widened back to
      octets, are those octets' bits. */
  lemma OctetFieldsWidened(b0: bv8, b1: bv8)
    ensures (((b0 >> 6) & 0x03) as bv2) as bv8 == b0 >> 6
    ensures (((b1 >> 1) & 0x07) as bv3) as bv8 == (b1 >> 1) & 0x07
    ensures ((b1 & 0x01) as bv1) as bv8 == b1 & 0x01
  {
  }

  /** The first identification octet is determined by its top two bits and
      the six below them. */
  lemma IdentificationFirstOctet(x: bv8, y: bv8)
    requires x >> 6 == y >> 6 && x & 0x3F == y & 0x3F
    ensures x == y
  {
  }

  /** The second identification octet is determined by its top nibble, the
      three bits below it and its lowest bit. */
  lemma IdentificationSecondOctet(x: bv8, y: bv8)
    requires x >> 4 == y >> 4 && (x >> 1) & 0x07 == (y >> 1) & 0x07 && x & 0x01 == y & 0x01
    ensures x == y
  {
  }

  /** Reassembling the subfields decode extracts from a status word gives the
      word back: the one bit they share is read into both and ORed again. */
  lemma StatusWordRebuilt(w: bv16)
    ensures StatusWord((w >> 14) & 0x03, ((w >> 13) & 0x01) as bv1, ((w >> 12) & 0x01) as bv1,
                       ((w >> 10) & 0x03) as bv2, (w & 0x7FF) as bv11) == w
  {
  }

  /** The frame decode reconstructs from `b`, or its error. The payload
      length is `buffer_size` minus 8, stored in the 16-bit `data_length`,
      so it is taken modulo 65536. */
  function TmDecode(b: seq<bv8>): (r: Result<TmFrameValue>)
    ensures r == Err(InvalidParam) <==> |b| < TM_PRIMARY_HEADER_SIZE + TM_FRAME_ERROR_CONTROL_SIZE
    ensures r == Err(InvalidFrame) <==>
      |b| >= TM_PRIMARY_HEADER_SIZE + TM_FRAME_ERROR_CONTROL_SIZE
      && ToUint16(|b| - TM_PRIMARY_HEADER_SIZE - TM_FRAME_ERROR_CONTROL_SIZE) > TM_MAX_DATA_SIZE
    ensures r.Ok? ==> r.value.header == TmParseHeader(b[0], b[1], b[2], b[3], b[4], b[5])
    ensures r.Ok? ==> |r.value.data| == ToUint16(|b| - TM_PRIMARY_HEADER_SIZE - TM_FRAME_ERROR_CONTROL_SIZE)
    ensures r.Ok? ==> r.value.data == b[TM_PRIMARY_HEADER_SIZE .. TM_PRIMARY_HEADER_SIZE + |r.value.data|]
    ensures r.Ok? ==> r.value.fecf == Crc16(b[..|b| - TM_FRAME_ERROR_CONTROL_SIZE])
    ensures |b| >= TM_PRIMARY_HEADER_SIZE + TM_FRAME_ERROR_CONTROL_SIZE ==>
      var n := ToUint16(|b| - TM_PRIMARY_HEADER_SIZE - TM_FRAME_ERROR_CONTROL_SIZE);
      n <= TM_MAX_DATA_SIZE ==>
        (r.Ok? <==> BigEndianWord(b[TM_PRIMARY_HEADER_SIZE + n], b[TM_PRIMARY_HEADER_SIZE + n + 1])
                    == Crc16(b[..|b| - TM_FRAME_ERROR_CONTROL_SIZE]))
  {
    if |b| < TM_PRIMARY_HEADER_SIZE + TM_FRAME_ERROR_CONTROL_SIZE then Err(InvalidParam)
    else
      var header := TmParseHeader(b[0], b[1], b[2], b[3], b[4], b[5]);
      var dataLength := ToUint16(|b| - TM_PRIMARY_HEADER_SIZE - TM_FRAME_ERROR_CONTROL_SIZE);
      if dataLength > TM_MAX_DATA_SIZE then Err(InvalidFrame)
      else
        var offset := TM_PRIMARY_HEADER_SIZE + dataLength;
        var fecf := BigEndianWord(b[offset], b[offset + 1]);
        if Crc16(b[..|b| - TM_FRAME_ERROR_CONTROL_SIZE]) != fecf then Err(CrcMismatch)
        else Ok(TmFrameValue(header, b[TM_PRIMARY_HEADER_SIZE .. offset], fecf))
  }

  /** The outcome of decode once the payload length is known to fit. */
  lemma TmDecodeFits(b: seq<bv8>, dataLength: nat, fecf: bv16)
    requires TM_PRIMARY_HEADER_SIZE + TM_FRAME_ERROR_CONTROL_SIZE <= |b|
    requires dataLength == ToUint16(|b| - TM_PRIMARY_HEADER_SIZE - TM_FRAME_ERROR_CONTROL_SIZE) <= TM_MAX_DATA_SIZE
    requires fecf == BigEndianWord(b[TM_PRIMARY_HEADER_SIZE + dataLength], b[TM_PRIMARY_HEADER_SIZE + dataLength + 1])
    ensures TmDecode(b)
      == if Crc16(b[..|b| - TM_FRAME_ERROR_CONTROL_SIZE]) != fecf then Err(CrcMismatch)
         else Ok(TmFrameValue(TmParseHeader(b[0], b[1], b[2], b[3], b[4], b[5]),
                              b[TM_PRIMARY_HEADER_SIZE .. TM_PRIMARY_HEADER_SIZE + dataLength], fecf))
  {
  }

  // ---------------------------------------------------------------- the frame struct

  /** The caller-owned `sdlp_tm_frame_t`. */
  class TmFrame {
    var header: TmHeader
    var data: TmPayload
    var fecf: bv16

    function Value(): TmFrameValue
      reads this
    {
      TmFrameValue(header, data, fecf)
    }

    /** A zero-initialised frame struct. */
    constructor ()
      ensures Value() == ZeroTmFrame
    {
      header, data, fecf := ZeroTmHeader, [], 0;
    }

    /** sdlp_tm_encode_frame with `buffer_size` = buffer.Length: fails before
        writing anything when the buffer is too small; otherwise writes
        exactly the encoded frame at the start of the buffer and nothing
        after it. */
    method Encode(buffer: array<bv8>) returns (status: Status, encodedSize: nat)
      modifies buffer
      ensures status == if buffer.Length < TmEncodedSize(Value()) then Failure(BufferTooSmall) else Success
      ensures status.Failure? ==> buffer[..] == old(buffer[..])
      ensures status.Success? ==> encodedSize == TmEncodedSize(Value())
      ensures status.Success? ==> buffer[..encodedSize] == TmEncode(Value())
      ensures status.Success? ==> buffer[encodedSize..] == old(buffer[encodedSize..])
    {
      var requiredSize := TM_PRIMARY_HEADER_SIZE + |data| + TM_FRAME_ERROR_CONTROL_SIZE;
      if buffer.Length < requiredSize {
        return Failure(BufferTooSmall), 0;
      }
      ghost var original := buffer[..];
      ghost var prefix := TmFramePrefix(Value());
      ghost var before := buffer[..];
      var offset := 0;
      CopyBytes(buffer, offset, TmHeaderBytes(header));
      SpliceAfter([], TmHeaderBytes(header), original, before, buffer[..]);
      offset := offset + TM_PRIMARY_HEADER_SIZE;
      before := buffer[..];
      CopyBytes(buffer, offset, data);
      SpliceAfter(TmHeaderBytes(header), data, original, before, buffer[..]);
      offset := offset + |data|;
      before := buffer[..];
      assert offset == |prefix| && before[..offset] == prefix;
      offset := AppendFecf(buffer, offset);
      SpliceAfter(prefix, FecfBytes(Crc16(prefix)), original, before, buffer[..]);
      encodedSize := offset;
      status := Success;
    }

    /** sdlp_tm_decode_frame: the struct is cleared only after the size check,
        so a buffer shorter than header plus trailer leaves it as it was. On
        success the struct holds the decoded frame. */
    method Decode(buffer: seq<bv8>) returns (status: Status)
      modifies this
      ensures status == TmDecode(buffer).ToStatus()
      ensures status.Success? ==> Value() == TmDecode(buffer).value
      ensures status == Failure(InvalidParam) ==> Value() == old(Value())
    {
      var bufferSize := |buffer|;
      if bufferSize < TM_PRIMARY_HEADER_SIZE + TM_FRAME_ERROR_CONTROL_SIZE {
        return Failure(InvalidParam);
      }
      header, data, fecf := ZeroTmHeader, [], 0;
      var offset := 0;
      header := TmParseHeader(buffer[offset], buffer[offset + 1], buffer[offset + 2],
                              buffer[offset + 3], buffer[offset + 4], buffer[offset + 5]);
      offset := offset + TM_PRIMARY_HEADER_SIZE;
      var dataLength := ToUint16(bufferSize - TM_PRIMARY_HEADER_SIZE - TM_FRAME_ERROR_CONTROL_SIZE);
      if dataLength > TM_MAX_DATA_SIZE {
        return Failure(InvalidFrame);
      }
      data := buffer[offset .. offset + dataLength];
      offset := offset + dataLength;
      fecf := BigEndianWord(buffer[offset], buffer[offset + 1]);
      var calculatedCrc := Crc16(buffer[..bufferSize - TM_FRAME_ERROR_CONTROL_SIZE]);
      TmDecodeFits(buffer, dataLength, fecf);
      if calculatedCrc != fecf {
        return Failure(CrcMismatch);
      }
      status := Success;
    }
  }

  /** The module-level `tm_frame_counter` and the create operation that
      reads and post-increments it. */
  class TmFrameGenerator {
    var counter: bv8

    /** The counter starts at 0, as the static initialiser sets it. */
    constructor ()
      ensures counter == 0
    {
      counter := 0;
    }

    /** sdlp_tm_create_frame: the length check comes before anything is
        changed, so a rejected call leaves both the frame and the counter as
        they were; a successful one stamps the frame with the counter and
        advances it by one, modulo 256. */
    method CreateFrame(frame: TmFrame, spacecraftId: bv16, virtualChannelId: bv8, payload: seq<bv8>)
      returns (status: Status)
      requires |payload| <= 0xFFFF
      modifies this, frame
      ensures status == TmCreate(old(counter), spacecraftId, virtualChannelId, payload).ToStatus()
      ensures status.Success? ==> frame.Value() == TmCreate(old(counter), spacecraftId, virtualChannelId, payload).value
      ensures status.Failure? ==> frame.Value() == old(frame.Value())
      ensures counter == TmCounterAfter(old(counter), payload)
    {
      if |payload| > TM_MAX_DATA_SIZE {
        return Failure(InvalidParam);
      }
      frame.header, frame.data, frame.fecf := ZeroTmHeader, [], 0;
      frame.header := frame.header.(version := SDLP_VERSION);
      frame.header := frame.header.(spacecraftId := (spacecraftId & 0x3FF) as bv10);
      frame.header := frame.header.(virtualChannelId := (virtualChannelId & 0x07) as bv3);
      frame.header := frame.header.(ocfFlag := 0);
      frame.header := frame.header.(masterChannelFrameCount := counter);
      counter := counter + 1;
      frame.header := frame.header.(virtualChannelFrameCount := 0);
      frame.header := frame.header.(dataFieldStatus := 0);
      frame.header := frame.header.(syncFlag := 0);
      frame.header := frame.header.(packetOrderFlag := 0);
      frame.header := frame.header.(segmentLengthId := 3);
      frame.header := frame.header.(firstHeaderPointer := 0);
      frame.data := payload;
      status := Success;
    }
  }
}
