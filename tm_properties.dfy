/** Properties of the Telemetry codec: the round trip through encode and
    decode, the bit shared by two subfields of the status word, the frame
    counter, and the frame of the example program. */
module TmProperties {
  import opened SdlpCommon
  import opened TmTypes
  import opened TmCodec

  /** The header decode reads back from the octets encode wrote. Only the
      two low bits of `dataFieldStatus` fit in the status word, and bit 10
      is shared: it is read back into the low bit of the segment length id
      and into the top bit of the first header pointer, as the OR of the
      two bits written there. */
  function TmDecodedHeader(h: TmHeader): TmHeader {
    h.(dataFieldStatus := h.dataFieldStatus & 0x03,
       segmentLengthId := MergedSegmentLengthId(h.segmentLengthId, h.firstHeaderPointer),
       firstHeaderPointer := MergedFirstHeaderPointer(h.segmentLengthId, h.firstHeaderPointer))
  }

  /** Bits 10-11 of the status word: the segment length id with the top bit
      of the first header pointer ORed into its low bit. */
  function MergedSegmentLengthId(segmentLengthId: bv2, firstHeaderPointer: bv11): bv2 {
    segmentLengthId | (firstHeaderPointer >> 10) as bv2
  }

  /** Bits 0-10 of the status word: the first header pointer with the low
      bit of the segment length id ORed into its top bit. */
  function MergedFirstHeaderPointer(segmentLengthId: bv2, firstHeaderPointer: bv11): bv11 {
    firstHeaderPointer | (((segmentLengthId & 0x01) as bv11) << 10)
  }

  /** Reading back the six header octets yields TmDecodedHeader. */
  lemma TmHeaderRoundTrip(h: TmHeader)
    ensures var b := TmHeaderBytes(h);
      TmParseHeader(b[0], b[1], b[2], b[3], b[4], b[5]) == TmDecodedHeader(h)
  {
    TmIdentificationRoundTrip(h);
    TmStatusRoundTrip(h);
  }

  /** The identification octets 0-3 are read back field for field. */
  lemma TmIdentificationRoundTrip(h: TmHeader)
    ensures var b := TmHeaderBytes(h);
      var p := TmParseHeader(b[0], b[1], b[2], b[3], b[4], b[5]);
      && p.version == h.version && p.spacecraftId == h.spacecraftId
      && p.virtualChannelId == h.virtualChannelId && p.ocfFlag == h.ocfFlag
      && p.masterChannelFrameCount == h.masterChannelFrameCount
      && p.virtualChannelFrameCount == h.virtualChannelFrameCount
  {
  }

  /** The status octets 4-5 are read back as TmDecodedHeader says. */
  lemma TmStatusRoundTrip(h: TmHeader)
    ensures var b := TmHeaderBytes(h);
      var p := TmParseHeader(b[0], b[1], b[2], b[3], b[4], b[5]);
      var d := TmDecodedHeader(h);
      && p.dataFieldStatus == d.dataFieldStatus && p.syncFlag == d.syncFlag
      && p.packetOrderFlag == d.packetOrderFlag && p.segmentLengthId == d.segmentLengthId
      && p.firstHeaderPointer == d.firstHeaderPointer
  {
    var b := TmHeaderBytes(h);
    var w := TmStatusWord(h);
    assert b[4] == HighByte(w) && b[5] == LowByte(w);
    TmStatusFlagsRoundTrip(h, b[0], b[1], b[2], b[3]);
    TmSharedBitRoundTrip(h, b[0], b[1], b[2], b[3]);
  }

  /** Status, sync flag and packet order flag come back from the status
      word, the status cut to its two low bits. */
  lemma TmStatusFlagsRoundTrip(h: TmHeader, b0: bv8, b1: bv8, b2: bv8, b3: bv8)
    ensures var w := TmStatusWord(h);
      var p := TmParseHeader(b0, b1, b2, b3, HighByte(w), LowByte(w));
      && p.dataFieldStatus == h.dataFieldStatus & 0x03 && p.syncFlag == h.syncFlag
      && p.packetOrderFlag == h.packetOrderFlag
  {
    BigEndianRoundTrip(TmStatusWord(h));
    StatusWordSplit(h.dataFieldStatus, h.syncFlag, h.packetOrderFlag, h.segmentLengthId, h.firstHeaderPointer);
  }

  /** Segment length id and first header pointer come back merged at bit 10. */
  lemma TmSharedBitRoundTrip(h: TmHeader, b0: bv8, b1: bv8, b2: bv8, b3: bv8)
    ensures var w := TmStatusWord(h);
      var p := TmParseHeader(b0, b1, b2, b3, HighByte(w), LowByte(w));
      && p.segmentLengthId == MergedSegmentLengthId(h.segmentLengthId, h.firstHeaderPointer)
      && p.firstHeaderPointer == MergedFirstHeaderPointer(h.segmentLengthId, h.firstHeaderPointer)
  {
    BigEndianRoundTrip(TmStatusWord(h));
    StatusWordSplit(h.dataFieldStatus, h.syncFlag, h.packetOrderFlag, h.segmentLengthId, h.firstHeaderPointer);
  }

  /** The subfields decode extracts from a status word encode assembled. */
  lemma StatusWordSplit(status: bv16, syncFlag: bv1, packetOrderFlag: bv1, segmentLengthId: bv2, firstHeaderPointer: bv11)
    ensures var w := StatusWord(status, syncFlag, packetOrderFlag, segmentLengthId, firstHeaderPointer);
      && (w >> 14) & 0x03 == status & 0x03
      && ((w >> 13) & 0x01) as bv1 == syncFlag
      && ((w >> 12) & 0x01) as bv1 == packetOrderFlag
      && ((w >> 10) & 0x03) as bv2 == MergedSegmentLengthId(segmentLengthId, firstHeaderPointer)
      && (w & 0x7FF) as bv11 == MergedFirstHeaderPointer(segmentLengthId, firstHeaderPointer)
  {
  }

  /** A header is read back unchanged exactly when its status value fits in
      two bits and the top bit of its first header pointer equals the low
      bit of its segment length id. */
  lemma TmHeaderSurvivesIff(h: TmHeader)
    ensures TmDecodedHeader(h) == h
        <==> h.dataFieldStatus < 4 && (h.firstHeaderPointer >> 10) as bv2 == h.segmentLengthId & 0x01
  {
  }

  /** Decoding an encoded frame succeeds and yields the decoded header, the
      same payload and the checksum of the rest. */
  lemma TmRoundTrip(f: TmFrameValue)
    ensures TmDecode(TmEncode(f)) == Ok(TmFrameValue(TmDecodedHeader(f.header), f.data, Crc16(TmFramePrefix(f))))
  {
    var b := TmEncode(f);
    var prefix := TmFramePrefix(f);
    assert b == prefix + FecfBytes(Crc16(prefix));
    assert b[..6] == TmHeaderBytes(f.header);
    TmHeaderRoundTrip(f.header);
    assert b[TM_PRIMARY_HEADER_SIZE .. TM_PRIMARY_HEADER_SIZE + |f.data|] == f.data;
    assert b[..|b| - 2] == prefix;
    assert BigEndianWord(b[6 + |f.data|], b[7 + |f.data|]) == Crc16(prefix);
    TmDecodeFits(b, |f.data|, Crc16(prefix));
  }

  /** With the low bit of the segment length id set, bit 10 of the status
      word is set whatever the first header pointer holds there. */
  lemma SharedBit10(status: bv16, syncFlag: bv1, packetOrderFlag: bv1, segmentLengthId: bv2, firstHeaderPointer: bv11)
    requires segmentLengthId & 0x01 == 1
    ensures StatusWord(status, syncFlag, packetOrderFlag, segmentLengthId, firstHeaderPointer | 0x400)
         == StatusWord(status, syncFlag, packetOrderFlag, segmentLengthId, firstHeaderPointer)
  {
  }

  /** Two headers that differ only in the top bit of the first header
      pointer are written identically when the low bit of the segment
      length id is set, so decode cannot tell them apart. */
  lemma TmStatusWordOverlap(h: TmHeader)
    requires h.segmentLengthId & 0x01 == 1
    ensures TmHeaderBytes(h.(firstHeaderPointer := h.firstHeaderPointer | 0x400)) == TmHeaderBytes(h)
  {
    SharedBit10(h.dataFieldStatus, h.syncFlag, h.packetOrderFlag, h.segmentLengthId, h.firstHeaderPointer);
  }

  /** A created frame (segment length id 3, first header pointer 0) comes
      back from encode and decode with first header pointer 0x400 and
      otherwise unchanged. */
  lemma TmCreatedFrameDecodesPointer400(counter: bv8, spacecraftId: bv16, virtualChannelId: bv8, payload: seq<bv8>)
    requires |payload| <= TM_MAX_DATA_SIZE
    ensures var c := TmCreate(counter, spacecraftId, virtualChannelId, payload).value;
      var d := TmDecode(TmEncode(c));
      && d.Ok?
      && d.value.header.firstHeaderPointer == 0x400
      && d.value.header == c.header.(firstHeaderPointer := 0x400)
      && d.value.data == payload
  {
    var c := TmCreate(counter, spacecraftId, virtualChannelId, payload).value;
    TmRoundTrip(c);
  }

  /** Without wrap-around of the payload length (a buffer of 8 to 65535
      octets), decode rejects a payload longer than 1024 octets with
      INVALID_FRAME, and succeeds, returning every octet between the header
      and the trailer, exactly when the trailing word is the checksum of the
      rest. */
  lemma TmDecodeOutcome(b: seq<bv8>)
    ensures TM_PRIMARY_HEADER_SIZE + TM_FRAME_ERROR_CONTROL_SIZE <= |b| < 0x1_0000 ==>
      && (TmDecode(b) == Err(InvalidFrame) <==> |b| - 8 > TM_MAX_DATA_SIZE)
      && (TmDecode(b) == Err(CrcMismatch) <==> |b| - 8 <= TM_MAX_DATA_SIZE && !HasValidFecf(b))
      && (TmDecode(b).Ok? ==> TmDecode(b).value.data == b[6 .. |b| - 2])
  {
  }

  /** The payload length is kept in a 16-bit field, so a buffer of 65536 + 8
      octets is not rejected as too long: it decodes exactly when octets 6-7
      hold the checksum of everything but the last two, and then as an empty
      payload with those two octets as its FECF. */
  lemma TmDecodeLengthWraps(b: seq<bv8>)
    requires |b| == 0x1_0000 + TM_PRIMARY_HEADER_SIZE + TM_FRAME_ERROR_CONTROL_SIZE
    ensures TmDecode(b) != Err(InvalidFrame)
    ensures TmDecode(b).Ok? ==> TmDecode(b).value.data == [] && TmDecode(b).value.fecf == BigEndianWord(b[6], b[7])
    ensures TmDecode(b).Ok? <==> BigEndianWord(b[6], b[7]) == Crc16(b[..|b| - TM_FRAME_ERROR_CONTROL_SIZE])
  {
    assert ToUint16(|b| - 8) == 0;
  }

  /** The frames a run of successful creates builds from counter value
      `counter`, one per payload, the counter advancing after each. */
  function TmCreateMany(counter: bv8, spacecraftId: bv16, virtualChannelId: bv8, payloads: seq<seq<bv8>>)
    : seq<TmFrameValue>
    requires forall i :: 0 <= i < |payloads| ==> |payloads[i]| <= TM_MAX_DATA_SIZE
    decreases |payloads|
  {
    if payloads == [] then []
    else
      [TmCreate(counter, spacecraftId, virtualChannelId, payloads[0]).value]
        + TmCreateMany(TmCounterAfter(counter, payloads[0]), spacecraftId, virtualChannelId, payloads[1..])
  }

  /** Consecutive creates number their frames N, N+1, N+2, ... modulo 256,
      and each frame carries its own payload. */
  lemma {:induction false} TmConsecutiveFrameCounts(counter: bv8, spacecraftId: bv16, virtualChannelId: bv8, payloads: seq<seq<bv8>>)
    requires forall i :: 0 <= i < |payloads| ==> |payloads[i]| <= TM_MAX_DATA_SIZE
    ensures var frames := TmCreateMany(counter, spacecraftId, virtualChannelId, payloads);
      && |frames| == |payloads|
      && (|frames| > 0 ==> frames[0].header.masterChannelFrameCount == counter)
      && (forall i :: 0 <= i < |frames| ==> frames[i].data == payloads[i])
      && (forall i :: 0 <= i < |frames| - 1 ==>
            frames[i + 1].header.masterChannelFrameCount == frames[i].header.masterChannelFrameCount + 1)
    decreases |payloads|
  {
    if payloads != [] {
      var rest := payloads[1..];
      TmConsecutiveFrameCounts(counter + 1, spacecraftId, virtualChannelId, rest);
      var frames := TmCreateMany(counter, spacecraftId, virtualChannelId, payloads);
      var tail := TmCreateMany(counter + 1, spacecraftId, virtualChannelId, rest);
      assert frames == [TmCreate(counter, spacecraftId, virtualChannelId, payloads[0]).value] + tail;
      forall i | 0 <= i < |frames|
        ensures frames[i].data == payloads[i]
      {
        if i > 0 {
          assert frames[i] == tail[i - 1];
        }
      }
    }
  }

  /** The frame of the example program: spacecraft 0x123, virtual channel 2
      and a 31-octet reading, created as the first frame (counter 0). It
      occupies 39 octets, its header octets are 12 34 00 00 0C 00, and it
      decodes with first header pointer 0x400. */
  lemma TmExampleFrame(reading: seq<bv8>)
    requires |reading| == 31
    ensures var c := TmCreate(0, 0x123, 2, reading).value;
      && |TmEncode(c)| == 39
      && TmEncode(c)[..6] == [0x12, 0x34, 0x00, 0x00, 0x0C, 0x00]
      && TmDecode(TmEncode(c)).value.header.firstHeaderPointer == 0x400
  {
    var c := TmCreate(0, 0x123, 2, reading).value;
    assert c.header == TmHeader(0, 0x123, 2, 0, 0, 0, 0, 0, 0, 3, 0);
    assert TmHeaderBytes(c.header) == [0x12, 0x34, 0x00, 0x00, 0x0C, 0x00];
    assert TmEncode(c)[..6] == TmFramePrefix(c)[..6];
    TmCreatedFrameDecodesPointer400(0, 0x123, 2, reading);
  }
}
