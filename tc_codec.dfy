/** The Telecommand frame codec: frame creation, the segment-header setter,
    encoding into a caller buffer and decoding from one. The wire layout is
    given by the specification functions below; the class TcFrame is the
    caller-owned frame struct that the operations fill in place.

    Whether segment headers are built in (TC_SEGMENT_HEADER_ENABLED in C) is
    the parameter `segmentEnabled` of encode and decode. */
module TcCodec {
  import opened SdlpCommon
  import opened TcTypes

  /** Encode emits, and decode expects, a segment header octet exactly when
      the feature is built in and the control-command flag is clear. */
  predicate SegmentHeaderPresent(h: TcHeader, segmentEnabled: bool) {
    segmentEnabled && h.controlCommandFlag == 0
  }

  // ---------------------------------------------------------------- create

  /** The frame that create builds, or its error. */
  function TcCreate(spacecraftId: bv16, virtualChannelId: bv8, frameSeqNum: bv8, payload: seq<bv8>)
    : (r: Result<TcFrameValue>)
    requires |payload| <= 0xFFFF
    ensures r.Ok? <==> |payload| <= TC_MAX_DATA_SIZE
    ensures r.Err? ==> r.error == InvalidParam
    ensures r.Ok? ==> r.value.data == payload && r.value.fecf == 0
    ensures r.Ok? ==> r.value.header.frameSequenceNumber == frameSeqNum
    ensures r.Ok? ==> r.value.header.spacecraftId as bv16 == spacecraftId & 0x3FF
    ensures r.Ok? ==> r.value.header.virtualChannelId as bv8 == virtualChannelId & 0x3F
    ensures r.Ok? && spacecraftId < 1024 ==> r.value.header.spacecraftId as bv16 == spacecraftId
    ensures r.Ok? && virtualChannelId < 64 ==> r.value.header.virtualChannelId as bv8 == virtualChannelId
    ensures r.Ok? && |payload| > 0 ==> r.value.header.frameLength == (|payload| - 1) as bv10
    ensures r.Ok? && |payload| == 0 ==> r.value.header.frameLength == 1023
    ensures r.Ok? ==> r.value.header.version == SDLP_VERSION && r.value.header.bypassFlag == 0
    ensures r.Ok? ==> r.value.header.controlCommandFlag == 0 && r.value.header.reserved == 0
    ensures r.Ok? ==> r.value.useSegmentHeader == 0 && r.value.segmentHeader == ZeroSegmentHeader
  {
    if |payload| > TC_MAX_DATA_SIZE then Err(InvalidParam)
    else
      var h := TcHeader(
        SDLP_VERSION, 0, 0, 0,
        (spacecraftId & 0x3FF) as bv10,
        (virtualChannelId & 0x3F) as bv6,
        ((|payload| - 1) % 1024) as bv10,
        frameSeqNum);
      Ok(ZeroTcFrame.(header := h, data := payload))
  }

  // ---------------------------------------------------------------- segment header

  /** The frame after set_segment_header: both arguments are masked to their
      field widths, and no other field changes. */
  function TcSetSegmentHeader(f: TcFrameValue, sequenceFlags: bv8, mapId: bv8): (r: TcFrameValue)
    ensures r.segmentHeader.sequenceFlags as bv8 == sequenceFlags & 0x03
    ensures r.segmentHeader.mapId as bv8 == mapId & 0x3F
    ensures r.(segmentHeader := f.segmentHeader) == f
  {
    f.(segmentHeader := TcSegmentHeader((sequenceFlags & 0x03) as bv2, (mapId & 0x3F) as bv6))
  }

  // ---------------------------------------------------------------- encode

  /** Number of bytes encode writes, and the buffer size it demands. */
  function TcEncodedSize(f: TcFrameValue, segmentEnabled: bool): (n: nat)
    ensures TC_PRIMARY_HEADER_SIZE + TC_FRAME_ERROR_CONTROL_SIZE <= n
    ensures n <= TC_PRIMARY_HEADER_SIZE + TC_SEGMENT_HEADER_SIZE + TC_MAX_DATA_SIZE + TC_FRAME_ERROR_CONTROL_SIZE
  {
    TC_PRIMARY_HEADER_SIZE + |f.data| + TC_FRAME_ERROR_CONTROL_SIZE
      + (if SegmentHeaderPresent(f.header, segmentEnabled) then TC_SEGMENT_HEADER_SIZE else 0)
  }

  /** The five primary header octets, most significant bit first. */
  function TcHeaderBytes(h: TcHeader): (r: seq<bv8>)
    ensures |r| == TC_PRIMARY_HEADER_SIZE
  {
    [ ((h.version as bv8) << 6) | ((h.bypassFlag as bv8) << 5) | ((h.controlCommandFlag as bv8) << 4)
        | ((h.reserved as bv8) << 2) | ((h.spacecraftId >> 8) & 0x03) as bv8,
      (h.spacecraftId & 0xFF) as bv8,
      ((h.virtualChannelId as bv8) << 2) | 0x00,
      HighByte(h.frameLength as bv16),
      LowByte(h.frameLength as bv16) ]
  }

  /** Where each header field sits in the five octets: octet 0 holds the
      version, the bypass flag, the control-command flag, the reserved bits
      and the top two spacecraft id bits; octet 1 the low eight; octet 2 the
      virtual channel id over two zero bits; octets 3-4 the frame length as a
      big-endian word. */
  lemma TcHeaderBytesLayout(h: TcHeader)
    ensures var r := TcHeaderBytes(h);
      && r[0] >> 6 == h.version as bv8
      && (r[0] >> 5) & 0x01 == h.bypassFlag as bv8
      && (r[0] >> 4) & 0x01 == h.controlCommandFlag as bv8
      && (r[0] >> 2) & 0x03 == h.reserved as bv8
      && r[0] & 0x03 == (h.spacecraftId >> 8) as bv8 && r[1] == (h.spacecraftId & 0xFF) as bv8
      && r[2] >> 2 == h.virtualChannelId as bv8 && r[2] & 0x03 == 0
      && BigEndianWord(r[3], r[4]) == h.frameLength as bv16
  {
    BigEndianRoundTrip(h.frameLength as bv16);
  }

  /** The segment header octet: sequence flags in the top two bits, MAP id below. */
  function TcSegmentHeaderByte(s: TcSegmentHeader): bv8 {
    ((s.sequenceFlags as bv8) << 6) | s.mapId as bv8
  }

  /** The sequence flags are the top two bits of the segment header octet and
      the MAP id the six below them. */
  lemma TcSegmentHeaderByteLayout(s: TcSegmentHeader)
    ensures TcSegmentHeaderByte(s) >> 6 == s.sequenceFlags as bv8
    ensures TcSegmentHeaderByte(s) & 0x3F == s.mapId as bv8
  {
  }

  /** Everything encode writes before the frame error control field. */
  function TcFramePrefix(f: TcFrameValue, segmentEnabled: bool): (r: seq<bv8>)
    ensures |r| + TC_FRAME_ERROR_CONTROL_SIZE == TcEncodedSize(f, segmentEnabled)
  {
    TcHeaderBytes(f.header)
      + (if SegmentHeaderPresent(f.header, segmentEnabled) then [TcSegmentHeaderByte(f.segmentHeader)] else [])
      + f.data
  }

  /** The bytes encode writes: the prefix followed by its checksum. */
  function TcEncode(f: TcFrameValue, segmentEnabled: bool): (r: seq<bv8>)
    ensures |r| == TcEncodedSize(f, segmentEnabled)
    ensures HasValidFecf(r)
    ensures r[..|r| - 2] == TcFramePrefix(f, segmentEnabled)
  {
    var prefix := TcFramePrefix(f, segmentEnabled);
    var r := prefix + FecfBytes(Crc16(prefix));
    assert r[..|r| - 2] == prefix;
    r
  }

  // ---------------------------------------------------------------- decode

  /** The primary header as decode reads it from the first five octets; the
      sequence number is not read and stays 0. */
  function TcParseHeader(b0: bv8, b1: bv8, b2: bv8, b3: bv8, b4: bv8): TcHeader {
    TcHeader(
      ((b0 >> 6) & 0x03) as bv2,
      ((b0 >> 5) & 0x01) as bv1,
      ((b0 >> 4) & 0x01) as bv1,
      ((b0 >> 2) & 0x03) as bv2,
      ((((b0 & 0x03) as bv16) << 8) | b1 as bv16) as bv10,
      ((b2 >> 2) & 0x3F) as bv6,
      (BigEndianWord(b3, b4) & 0x3FF) as bv10,
      0)
  }

  /** Encoding the header decode parses gives the five octets back except
      the bits decode ignores: the low two bits of octet 2 and the top six
      bits of octet 3. */
  lemma TcParseHeaderReencodes(b0: bv8, b1: bv8, b2: bv8, b3: bv8, b4: bv8)
    ensures TcHeaderBytes(TcParseHeader(b0, b1, b2, b3, b4)) == [b0, b1, b2 & 0xFC, b3 & 0x03, b4]
  {
    var h := TcParseHeader(b0, b1, b2, b3, b4);
    TcParseFirstOctets(h, b0, b1);
    TcParseLastOctets(h, b2, b3, b4);
  }

  /** A header holding the fields decode reads from octets 0 and 1 encodes
      back to those two octets. */
  lemma TcParseFirstOctets(h: TcHeader, b0: bv8, b1: bv8)
    requires h.version == ((b0 >> 6) & 0x03) as bv2 && h.bypassFlag == ((b0 >> 5) & 0x01) as bv1
    requires h.controlCommandFlag == ((b0 >> 4) & 0x01) as bv1 && h.reserved == ((b0 >> 2) & 0x03) as bv2
    requires h.spacecraftId == ((((b0 & 0x03) as bv16) << 8) | b1 as bv16) as bv10
    ensures TcHeaderBytes(h)[0] == b0 && TcHeaderBytes(h)[1] == b1
  {
    TcHeaderBytesLayout(h);
    var e := TcHeaderBytes(h);
    SpacecraftIdLowOctet(b0, b1);
    FirstOctetRebuilt(e[0], b0);
  }

  /** A header holding the fields decode reads from octets 2-4 encodes back
      to them, less the two spare bits of octet 2 and the top six bits of
      octet 3, which the header has no room for. */
  lemma TcParseLastOctets(h: TcHeader, b2: bv8, b3: bv8, b4: bv8)
    requires h.virtualChannelId == ((b2 >> 2) & 0x3F) as bv6
    requires h.frameLength == (BigEndianWord(b3, b4) & 0x3FF) as bv10
    ensures TcHeaderBytes(h)[2] == b2 & 0xFC && TcHeaderBytes(h)[3] == b3 & 0x03 && TcHeaderBytes(h)[4] == b4
  {
    TcHeaderBytesLayout(h);
    var e := TcHeaderBytes(h);
    SecondOctetRebuilt(e[2], b2);
    FrameLengthOctets(b3, b4);
    BigEndianRoundTrip(h.frameLength as bv16);
  }

  /** An octet is determined by the five groups of bits the first header
      octet packs. */
  lemma FirstOctetRebuilt(x: bv8, y: bv8)
    requires x >> 6 == y >> 6 && (x >> 5) & 0x01 == (y >> 5) & 0x01 && (x >> 4) & 0x01 == (y >> 4) & 0x01
    requires (x >> 2) & 0x03 == (y >> 2) & 0x03 && x & 0x03 == y & 0x03
    ensures x == y
  {
  }

  /** The low octet of the spacecraft id decode assembles is octet 1, and its
      top two bits are the low two bits of octet 0. */
  lemma SpacecraftIdLowOctet(b0: bv8, b1: bv8)
    ensures var id := ((((b0 & 0x03) as bv16) << 8) | b1 as bv16) as bv10;
      (id & 0xFF) as bv8 == b1 && (id >> 8) as bv8 == b0 & 0x03
  {
  }

  /** An octet whose top six bits are those of `y` and whose low two bits are
      zero is `y` with its low two bits cleared. */
  lemma SecondOctetRebuilt(x: bv8, y: bv8)
    requires x >> 2 == ((y >> 2) & 0x3F) && x & 0x03 == 0
    ensures x == y & 0xFC
  {
  }

  /** The 10-bit frame length decode reads, written back as a big-endian word,
      gives octet 4 and the low two bits of octet 3. */
  lemma FrameLengthOctets(b3: bv8, b4: bv8)
    ensures var w := (BigEndianWord(b3, b4) & 0x3FF) as bv10 as bv16;
      HighByte(w) == b3 & 0x03 && LowByte(w) == b4
  {
  }

  /** Every octet is the encoding of the segment header parsed from it. */
  function TcParseSegmentHeader(b: bv8): (r: TcSegmentHeader)
    ensures TcSegmentHeaderByte(r) == b
  {
    TcSegmentHeader(((b >> 6) & 0x03) as bv2, (b & 0x3F) as bv6)
  }

  /** Whether decode reads a segment header from buffer `b` (at least one octet). */
  predicate TcSegmentHeaderExpected(b: seq<bv8>, segmentEnabled: bool)
    requires |b| > 0
  {
    segmentEnabled && (b[0] >> 4) & 0x01 == 0
  }

  /** Header and trailer octets around the payload of buffer `b`. */
  function TcOverhead(b: seq<bv8>, segmentEnabled: bool): nat
    requires |b| > 0
  {
    TC_PRIMARY_HEADER_SIZE + TC_FRAME_ERROR_CONTROL_SIZE
      + if TcSegmentHeaderExpected(b, segmentEnabled) then TC_SEGMENT_HEADER_SIZE else 0
  }

  /** The frame decode reconstructs from `b`, or its error. The payload
      length is `buffer_size` minus the overhead, stored in the 16-bit
      `data_length`, so it is taken modulo 65536. */
  function TcDecode(b: seq<bv8>, segmentEnabled: bool): (r: Result<TcFrameValue>)
    ensures r == Err(InvalidParam) <==> |b| < TC_PRIMARY_HEADER_SIZE + TC_FRAME_ERROR_CONTROL_SIZE
    ensures r.Ok? ==> r.value.header == TcParseHeader(b[0], b[1], b[2], b[3], b[4]) && r.value.useSegmentHeader == 0
    ensures r.Ok? && TcSegmentHeaderExpected(b, segmentEnabled) ==>
      r.value.segmentHeader == TcParseSegmentHeader(b[TC_PRIMARY_HEADER_SIZE])
    ensures r.Ok? && !TcSegmentHeaderExpected(b, segmentEnabled) ==> r.value.segmentHeader == ZeroSegmentHeader
    ensures r.Ok? ==> r.value.fecf == Crc16(b[..|b| - TC_FRAME_ERROR_CONTROL_SIZE])
  {
    if |b| < TC_PRIMARY_HEADER_SIZE + TC_FRAME_ERROR_CONTROL_SIZE then Err(InvalidParam)
    else
      var header := TcParseHeader(b[0], b[1], b[2], b[3], b[4]);
      if SegmentHeaderPresent(header, segmentEnabled) then
        if |b| < TC_PRIMARY_HEADER_SIZE + TC_SEGMENT_HEADER_SIZE + TC_FRAME_ERROR_CONTROL_SIZE then Err(InvalidFrame)
        else TcDecodePayload(b, header, TcParseSegmentHeader(b[TC_PRIMARY_HEADER_SIZE]), TC_PRIMARY_HEADER_SIZE + TC_SEGMENT_HEADER_SIZE)
      else TcDecodePayload(b, header, ZeroSegmentHeader, TC_PRIMARY_HEADER_SIZE)
  }

  /** The rest of decode once the headers are read: the payload runs from
      `offset` up to the trailer, its length truncated to 16 bits, and the
      word after it must equal the checksum of all bytes but the last two. */
  function TcDecodePayload(b: seq<bv8>, header: TcHeader, segmentHeader: TcSegmentHeader, offset: nat)
    : (r: Result<TcFrameValue>)
    requires offset + TC_FRAME_ERROR_CONTROL_SIZE <= |b|
    ensures r == Err(InvalidFrame) <==> ToUint16(|b| - offset - TC_FRAME_ERROR_CONTROL_SIZE) > TC_MAX_DATA_SIZE
    ensures r.Err? ==> r.error == InvalidFrame || r.error == CrcMismatch
    ensures r.Ok? ==> r.value.header == header && r.value.segmentHeader == segmentHeader && r.value.useSegmentHeader == 0
    ensures r.Ok? ==> |r.value.data| == ToUint16(|b| - offset - TC_FRAME_ERROR_CONTROL_SIZE)
    ensures r.Ok? ==> r.value.data == b[offset .. offset + |r.value.data|]
    ensures r.Ok? ==> r.value.fecf == Crc16(b[..|b| - TC_FRAME_ERROR_CONTROL_SIZE])
    ensures var n := ToUint16(|b| - offset - TC_FRAME_ERROR_CONTROL_SIZE);
      n <= TC_MAX_DATA_SIZE ==>
        (r.Ok? <==> BigEndianWord(b[offset + n], b[offset + n + 1]) == Crc16(b[..|b| - TC_FRAME_ERROR_CONTROL_SIZE]))
  {
    var dataLength := ToUint16(|b| - offset - TC_FRAME_ERROR_CONTROL_SIZE);
    if dataLength > TC_MAX_DATA_SIZE then Err(InvalidFrame)
    else
      var fecf := BigEndianWord(b[offset + dataLength], b[offset + dataLength + 1]);
      if Crc16(b[..|b| - TC_FRAME_ERROR_CONTROL_SIZE]) != fecf then Err(CrcMismatch)
      else Ok(TcFrameValue(header, 0, segmentHeader, b[offset .. offset + dataLength], fecf))
  }

  /** Without wrap-around of the payload length (a buffer under 65536 bytes),
      decode reports INVALID_FRAME exactly when the buffer cannot hold the
      headers or the payload would exceed 1024 bytes, CRC_MISMATCH exactly
      when the length is acceptable but the trailing word is not the checksum
      of the rest, and otherwise yields the bytes between headers and trailer. */
  lemma TcDecodeOutcome(b: seq<bv8>, segmentEnabled: bool)
    ensures TC_PRIMARY_HEADER_SIZE + TC_FRAME_ERROR_CONTROL_SIZE <= |b| < 0x1_0000 ==>
      var r := TcDecode(b, segmentEnabled);
      var overhead := TcOverhead(b, segmentEnabled);
      && (r == Err(InvalidFrame) <==> |b| < overhead || |b| - overhead > TC_MAX_DATA_SIZE)
      && (r == Err(CrcMismatch) <==> overhead <= |b| <= overhead + TC_MAX_DATA_SIZE && !HasValidFecf(b))
      && (r.Ok? ==> HasValidFecf(b) && r.value.data == b[overhead - 2 .. |b| - 2])
  {
  }

  /** Once the headers are read, decode goes on with the payload step from
      the octet after them. */
  lemma TcDecodeAfterHeaders(b: seq<bv8>, segmentEnabled: bool, header: TcHeader, segmentHeader: TcSegmentHeader, offset: nat)
    requires TC_PRIMARY_HEADER_SIZE + TC_FRAME_ERROR_CONTROL_SIZE <= |b|
    requires header == TcParseHeader(b[0], b[1], b[2], b[3], b[4])
    requires !SegmentHeaderPresent(header, segmentEnabled) ==>
      segmentHeader == ZeroSegmentHeader && offset == TC_PRIMARY_HEADER_SIZE
    requires SegmentHeaderPresent(header, segmentEnabled) ==>
      && TC_PRIMARY_HEADER_SIZE + TC_SEGMENT_HEADER_SIZE + TC_FRAME_ERROR_CONTROL_SIZE <= |b|
      && segmentHeader == TcParseSegmentHeader(b[TC_PRIMARY_HEADER_SIZE])
      && offset == TC_PRIMARY_HEADER_SIZE + TC_SEGMENT_HEADER_SIZE
    ensures offset + TC_FRAME_ERROR_CONTROL_SIZE <= |b|
    ensures TcDecode(b, segmentEnabled) == TcDecodePayload(b, header, segmentHeader, offset)
  {
  }

  /** The outcome of the payload step for the payload length `dataLength`
      it computes. */
  lemma TcDecodePayloadSteps(b: seq<bv8>, header: TcHeader, segmentHeader: TcSegmentHeader, offset: nat, dataLength: nat)
    requires offset + TC_FRAME_ERROR_CONTROL_SIZE <= |b|
    requires dataLength == ToUint16(|b| - offset - TC_FRAME_ERROR_CONTROL_SIZE)
    ensures dataLength > TC_MAX_DATA_SIZE ==> TcDecodePayload(b, header, segmentHeader, offset) == Err(InvalidFrame)
    ensures dataLength <= TC_MAX_DATA_SIZE ==>
      var fecf := BigEndianWord(b[offset + dataLength], b[offset + dataLength + 1]);
      TcDecodePayload(b, header, segmentHeader, offset)
        == if Crc16(b[..|b| - TC_FRAME_ERROR_CONTROL_SIZE]) != fecf then Err(CrcMismatch)
           else Ok(TcFrameValue(header, 0, segmentHeader, b[offset .. offset + dataLength], fecf))
  {
  }

  // ---------------------------------------------------------------- the frame struct

  /** The caller-owned `sdlp_tc_frame_t`. */
  class TcFrame {
    var header: TcHeader
    var useSegmentHeader: bv8
    var segmentHeader: TcSegmentHeader
    var data: TcPayload
    var fecf: bv16

    function Value(): TcFrameValue
      reads this
    {
      TcFrameValue(header, useSegmentHeader, segmentHeader, data, fecf)
    }

    /** A zero-initialised frame struct. */
    constructor ()
      ensures Value() == ZeroTcFrame
    {
      header, useSegmentHeader, segmentHeader, data, fecf := ZeroTcHeader, 0, ZeroSegmentHeader, [], 0;
    }

    /** sdlp_tc_create_frame: the length check comes before the struct is
        cleared, so a rejected call leaves the frame as it was. */
    method Create(spacecraftId: bv16, virtualChannelId: bv8, frameSeqNum: bv8, payload: seq<bv8>)
      returns (status: Status)
      requires |payload| <= 0xFFFF
      modifies this
      ensures status == TcCreate(spacecraftId, virtualChannelId, frameSeqNum, payload).ToStatus()
      ensures status.Success? ==> Value() == TcCreate(spacecraftId, virtualChannelId, frameSeqNum, payload).value
      ensures status.Failure? ==> Value() == old(Value())
    {
      if |payload| > TC_MAX_DATA_SIZE {
        return Failure(InvalidParam);
      }
      header, useSegmentHeader, segmentHeader, data, fecf := ZeroTcHeader, 0, ZeroSegmentHeader, [], 0;
      header := header.(version := SDLP_VERSION);
      header := header.(bypassFlag := 0);
      header := header.(controlCommandFlag := 0);
      header := header.(reserved := 0);
      header := header.(spacecraftId := (spacecraftId & 0x3FF) as bv10);
      header := header.(virtualChannelId := (virtualChannelId & 0x3F) as bv6);
      header := header.(frameLength := ((|payload| - 1) % 1024) as bv10);
      header := header.(frameSequenceNumber := frameSeqNum);
      data := payload;
      status := Success;
    }

    /** sdlp_tc_set_segment_header: masks the two fields and stores them; the
        header file forbids calling it on a frame whose control-command flag
        is set. */
    method SetSegmentHeader(sequenceFlags: bv8, mapId: bv8) returns (status: Status)
      requires header.controlCommandFlag == 0
      modifies this
      ensures status == Success
      ensures Value() == TcSetSegmentHeader(old(Value()), sequenceFlags, mapId)
    {
      segmentHeader := segmentHeader.(sequenceFlags := (sequenceFlags & 0x03) as bv2);
      segmentHeader := segmentHeader.(mapId := (mapId & 0x3F) as bv6);
      status := Success;
    }

    /** sdlp_tc_encode_frame with `buffer_size` = buffer.Length: fails before
        writing anything when the buffer is too small; otherwise writes
        exactly the encoded frame at the start of the buffer and nothing
        after it. */
    method Encode(buffer: array<bv8>, segmentEnabled: bool) returns (status: Status, encodedSize: nat)
      modifies buffer
      ensures status == if buffer.Length < TcEncodedSize(Value(), segmentEnabled) then Failure(BufferTooSmall) else Success
      ensures status.Failure? ==> buffer[..] == old(buffer[..])
      ensures status.Success? ==> encodedSize == TcEncodedSize(Value(), segmentEnabled)
      ensures status.Success? ==> buffer[..encodedSize] == TcEncode(Value(), segmentEnabled)
      ensures status.Success? ==> buffer[encodedSize..] == old(buffer[encodedSize..])
    {
      var requiredSize := TC_PRIMARY_HEADER_SIZE + |data| + TC_FRAME_ERROR_CONTROL_SIZE;
      if segmentEnabled && header.controlCommandFlag == 0 {
        requiredSize := requiredSize + TC_SEGMENT_HEADER_SIZE;
      }
      if buffer.Length < requiredSize {
        return Failure(BufferTooSmall), 0;
      }
      ghost var original := buffer[..];
      ghost var prefix := TcFramePrefix(Value(), segmentEnabled);
      ghost var headers := TcHeaderBytes(header)
        + (if segmentEnabled && header.controlCommandFlag == 0 then [TcSegmentHeaderByte(segmentHeader)] else []);
      assert prefix == headers + data;
      ghost var before := buffer[..];
      var offset := 0;
      CopyBytes(buffer, offset, TcHeaderBytes(header));
      SpliceAfter([], TcHeaderBytes(header), original, before, buffer[..]);
      offset := offset + TC_PRIMARY_HEADER_SIZE;
      if segmentEnabled && header.controlCommandFlag == 0 {
        before := buffer[..];
        CopyBytes(buffer, offset, [TcSegmentHeaderByte(segmentHeader)]);
        SpliceAfter(TcHeaderBytes(header), [TcSegmentHeaderByte(segmentHeader)], original, before, buffer[..]);
        offset := offset + TC_SEGMENT_HEADER_SIZE;
      }
      before := buffer[..];
      CopyBytes(buffer, offset, data);
      SpliceAfter(headers, data, original, before, buffer[..]);
      offset := offset + |data|;
      before := buffer[..];
      offset := AppendFecf(buffer, offset);
      SpliceAfter(prefix, FecfBytes(Crc16(prefix)), original, before, buffer[..]);
      encodedSize := offset;
      status := Success;
    }

    /** sdlp_tc_decode_frame: the struct is cleared only after the size check,
        so a buffer shorter than header plus trailer leaves it as it was. On
        success the struct holds the decoded frame; on the other failures its
        contents are unspecified. */
    method Decode(buffer: seq<bv8>, segmentEnabled: bool) returns (status: Status)
      modifies this
      ensures status == TcDecode(buffer, segmentEnabled).ToStatus()
      ensures status.Success? ==> Value() == TcDecode(buffer, segmentEnabled).value
      ensures status == Failure(InvalidParam) ==> Value() == old(Value())
    {
      var bufferSize := |buffer|;
      if bufferSize < TC_PRIMARY_HEADER_SIZE + TC_FRAME_ERROR_CONTROL_SIZE {
        return Failure(InvalidParam);
      }
      header, useSegmentHeader, segmentHeader, data, fecf := ZeroTcHeader, 0, ZeroSegmentHeader, [], 0;
      var offset := 0;
      header := TcParseHeader(buffer[offset], buffer[offset + 1], buffer[offset + 2], buffer[offset + 3], buffer[offset + 4]);
      offset := offset + TC_PRIMARY_HEADER_SIZE;
      var dataLength: nat;
      if segmentEnabled && header.controlCommandFlag == 0 {
        if bufferSize < TC_PRIMARY_HEADER_SIZE + TC_SEGMENT_HEADER_SIZE + TC_FRAME_ERROR_CONTROL_SIZE {
          assert TcDecode(buffer, segmentEnabled) == Err(InvalidFrame);
          return Failure(InvalidFrame);
        }
        segmentHeader := TcParseSegmentHeader(buffer[offset]);
        offset := offset + TC_SEGMENT_HEADER_SIZE;
        dataLength := ToUint16(bufferSize - TC_PRIMARY_HEADER_SIZE - TC_SEGMENT_HEADER_SIZE - TC_FRAME_ERROR_CONTROL_SIZE);
      } else {
        dataLength := ToUint16(bufferSize - TC_PRIMARY_HEADER_SIZE - TC_FRAME_ERROR_CONTROL_SIZE);
      }
      TcDecodeAfterHeaders(buffer, segmentEnabled, header, segmentHeader, offset);
      status := DecodePayload(buffer, offset, dataLength);
    }

    /** The part of decode after the headers: the payload length check, the
        payload, and the trailer checked against the checksum. */
    method DecodePayload(buffer: seq<bv8>, offset: nat, dataLength: nat) returns (status: Status)
      requires offset + TC_FRAME_ERROR_CONTROL_SIZE <= |buffer|
      requires dataLength == ToUint16(|buffer| - offset - TC_FRAME_ERROR_CONTROL_SIZE)
      requires useSegmentHeader == 0
      modifies this
      ensures status == TcDecodePayload(buffer, old(header), old(segmentHeader), offset).ToStatus()
      ensures status.Success? ==> Value() == TcDecodePayload(buffer, old(header), old(segmentHeader), offset).value
    {
      TcDecodePayloadSteps(buffer, header, segmentHeader, offset, dataLength);
      if dataLength > TC_MAX_DATA_SIZE {
        return Failure(InvalidFrame);
      }
      data := buffer[offset .. offset + dataLength];
      var trailer := offset + dataLength;
      fecf := BigEndianWord(buffer[trailer], buffer[trailer + 1]);
      var calculatedCrc := Crc16(buffer[..|buffer| - TC_FRAME_ERROR_CONTROL_SIZE]);
      if calculatedCrc != fecf {
        return Failure(CrcMismatch);
      }
      status := Success;
    }
  }
}
