/** Properties of the Telecommand codec: the round trip through encode and
    decode, what the wire format drops, and the frame of the example program. */
module TcProperties {
  import opened SdlpCommon
  import opened TcTypes
  import opened TcCodec

  /** Reading back the five header octets recovers every field except the
      sequence number, which is never written. */
  lemma TcHeaderRoundTrip(h: TcHeader)
    ensures var b := TcHeaderBytes(h);
      TcParseHeader(b[0], b[1], b[2], b[3], b[4]) == h.(frameSequenceNumber := 0)
  {
    var b := TcHeaderBytes(h);
    assert BigEndianWord(b[3], b[4]) == h.frameLength as bv16 by {
      BigEndianRoundTrip(h.frameLength as bv16);
    }
  }

  /** The segment header octet is read back unchanged. */
  lemma TcSegmentHeaderRoundTrip(s: TcSegmentHeader)
    ensures TcParseSegmentHeader(TcSegmentHeaderByte(s)) == s
  {
  }

  /** The control-command flag sits in bit 4 of the first octet, so the
      decoder's test for a segment header agrees with the encoder's. */
  lemma TcSegmentHeaderPresenceAgrees(f: TcFrameValue, segmentEnabled: bool)
    ensures TcSegmentHeaderExpected(TcEncode(f, segmentEnabled), segmentEnabled)
        == SegmentHeaderPresent(f.header, segmentEnabled)
  {
    var b := TcHeaderBytes(f.header);
    assert TcEncode(f, segmentEnabled)[0] == b[0];
  }

  /** What decode makes of the bytes encode wrote: the same header with the
      sequence number zeroed, the segment header only when one was written,
      `use_segment_header` cleared, the same payload, and the checksum of the
      rest in `fecf`. */
  function TcDecodedImage(f: TcFrameValue, segmentEnabled: bool): (r: TcFrameValue)
    ensures r.data == f.data && r.header.frameSequenceNumber == 0 && r.useSegmentHeader == 0
    ensures SegmentHeaderPresent(f.header, segmentEnabled) ==> r.segmentHeader == f.segmentHeader
    ensures !SegmentHeaderPresent(f.header, segmentEnabled) ==> r.segmentHeader == ZeroSegmentHeader
  {
    TcFrameValue(
      f.header.(frameSequenceNumber := 0),
      0,
      if SegmentHeaderPresent(f.header, segmentEnabled) then f.segmentHeader else ZeroSegmentHeader,
      f.data,
      Crc16(TcFramePrefix(f, segmentEnabled)))
  }

  /** Decoding an encoded frame succeeds, with either build setting, and
      yields TcDecodedImage. */
  lemma TcRoundTrip(f: TcFrameValue, segmentEnabled: bool)
    ensures TcDecode(TcEncode(f, segmentEnabled), segmentEnabled) == Ok(TcDecodedImage(f, segmentEnabled))
  {
    var b := TcEncode(f, segmentEnabled);
    var hb := TcHeaderBytes(f.header);
    var present := SegmentHeaderPresent(f.header, segmentEnabled);
    var offset := if present then TC_PRIMARY_HEADER_SIZE + TC_SEGMENT_HEADER_SIZE else TC_PRIMARY_HEADER_SIZE;
    var prefix := TcFramePrefix(f, segmentEnabled);
    assert b == prefix + FecfBytes(Crc16(prefix));
    assert b[..5] == hb;
    TcHeaderRoundTrip(f.header);
    var header := TcParseHeader(b[0], b[1], b[2], b[3], b[4]);
    assert header == f.header.(frameSequenceNumber := 0);
    assert SegmentHeaderPresent(header, segmentEnabled) == present;
    if present {
      assert b[5] == TcSegmentHeaderByte(f.segmentHeader);
      TcSegmentHeaderRoundTrip(f.segmentHeader);
    }
    assert |b| == offset + |f.data| + 2;
    assert b[offset .. offset + |f.data|] == f.data;
    assert b[..|b| - 2] == prefix;
    assert BigEndianWord(b[offset + |f.data|], b[offset + |f.data| + 1]) == Crc16(prefix);
    var segmentHeader := if present then f.segmentHeader else ZeroSegmentHeader;
    TcDecodePayloadSteps(b, header, segmentHeader, offset, |f.data|);
  }

  /** The sequence number given to create is lost on the wire: encode writes
      the same bytes whatever its value, so decode cannot recover it. */
  lemma TcSequenceNumberNotEncoded(f: TcFrameValue, n: bv8, segmentEnabled: bool)
    ensures TcEncode(f.(header := f.header.(frameSequenceNumber := n)), segmentEnabled) == TcEncode(f, segmentEnabled)
  {
    var g := f.(header := f.header.(frameSequenceNumber := n));
    assert TcHeaderBytes(g.header) == TcHeaderBytes(f.header);
    assert TcFramePrefix(g, segmentEnabled) == TcFramePrefix(f, segmentEnabled);
  }

  /** The `use_segment_header` flag has no influence on encode; whether a
      segment header is written depends only on the build setting and the
      control-command flag, and its contents are ignored otherwise. */
  lemma TcSegmentHeaderPresenceIgnoresFlag(f: TcFrameValue, u: bv8, s: TcSegmentHeader, segmentEnabled: bool)
    ensures TcEncode(f.(useSegmentHeader := u), segmentEnabled) == TcEncode(f, segmentEnabled)
    ensures !SegmentHeaderPresent(f.header, segmentEnabled) ==>
      TcEncode(f.(segmentHeader := s), segmentEnabled) == TcEncode(f, segmentEnabled)
    ensures SegmentHeaderPresent(f.header, segmentEnabled) ==>
      TcEncode(f, segmentEnabled)[TC_PRIMARY_HEADER_SIZE] == TcSegmentHeaderByte(f.segmentHeader)
  {
    if SegmentHeaderPresent(f.header, segmentEnabled) {
      assert TcFramePrefix(f, segmentEnabled)[TC_PRIMARY_HEADER_SIZE] == TcSegmentHeaderByte(f.segmentHeader);
    }
  }

  /** The octets of the primary header on the wire. Octet 0 holds version,
      bypass flag, control-command flag, reserved bits and the top two bits
      of the spacecraft id, octet 1 the rest of the spacecraft id. The low two
      bits of octet 2 are always zero, and octets 3-4 hold the 10-bit frame
      length as a big-endian 16-bit word, where the standard puts the
      sequence number in octet 4. */
  lemma TcHeaderLayout(f: TcFrameValue, segmentEnabled: bool)
    ensures var b := TcEncode(f, segmentEnabled);
      && b[0] >> 6 == f.header.version as bv8
      && (b[0] >> 5) & 0x01 == f.header.bypassFlag as bv8
      && (b[0] >> 4) & 0x01 == f.header.controlCommandFlag as bv8
      && (b[0] >> 2) & 0x03 == f.header.reserved as bv8
      && b[0] & 0x03 == ((f.header.spacecraftId >> 8) & 0x03) as bv8
      && b[1] == (f.header.spacecraftId & 0xFF) as bv8
      && b[2] & 0x03 == 0
      && b[2] >> 2 == f.header.virtualChannelId as bv8
      && BigEndianWord(b[3], b[4]) == f.header.frameLength as bv16
  {
    var b := TcEncode(f, segmentEnabled);
    var hb := TcHeaderBytes(f.header);
    TcHeaderBytesLayout(f.header);
    assert b[..5] == hb by {
      assert TcFramePrefix(f, segmentEnabled)[..5] == hb;
    }
    assert b[0] == hb[0] && b[1] == hb[1] && b[2] == hb[2] && b[3] == hb[3] && b[4] == hb[4];
  }

  /** The payload length is kept in a 16-bit field, so a buffer 65536 octets
      longer than its headers and trailer is not rejected as too long, with
      either build setting: it decodes exactly when the two octets after the
      headers hold the checksum of everything but the last two, and then as
      an empty payload with those two octets as its FECF. */
  lemma TcDecodeLengthWraps(b: seq<bv8>, segmentEnabled: bool)
    requires |b| > 0 && |b| == 0x1_0000 + TcOverhead(b, segmentEnabled)
    ensures TcDecode(b, segmentEnabled) != Err(InvalidFrame)
    ensures var r := TcDecode(b, segmentEnabled);
      var offset := TcOverhead(b, segmentEnabled) - TC_FRAME_ERROR_CONTROL_SIZE;
      r.Ok? ==> r.value.data == [] && r.value.fecf == BigEndianWord(b[offset], b[offset + 1])
    ensures var offset := TcOverhead(b, segmentEnabled) - TC_FRAME_ERROR_CONTROL_SIZE;
      (TcDecode(b, segmentEnabled).Ok? <==>
         BigEndianWord(b[offset], b[offset + 1]) == Crc16(b[..|b| - TC_FRAME_ERROR_CONTROL_SIZE]))
  {
    var offset := TcOverhead(b, segmentEnabled) - TC_FRAME_ERROR_CONTROL_SIZE;
    assert ToUint16(|b| - offset - TC_FRAME_ERROR_CONTROL_SIZE) == 0;
    var header := TcParseHeader(b[0], b[1], b[2], b[3], b[4]);
    var segmentHeader := if TcSegmentHeaderExpected(b, segmentEnabled) then TcParseSegmentHeader(b[TC_PRIMARY_HEADER_SIZE]) else ZeroSegmentHeader;
    TcDecodeAfterHeaders(b, segmentEnabled, header, segmentHeader, offset);
    TcDecodePayloadSteps(b, header, segmentHeader, offset, 0);
  }

  /** A created frame survives encode and decode up to its sequence number,
      which comes back 0, and its `fecf`, which comes back as the checksum. */
  lemma TcCreateEncodeDecode(spacecraftId: bv16, virtualChannelId: bv8, frameSeqNum: bv8, payload: seq<bv8>, segmentEnabled: bool)
    requires |payload| <= TC_MAX_DATA_SIZE
    ensures var c := TcCreate(spacecraftId, virtualChannelId, frameSeqNum, payload).value;
      var d := TcDecode(TcEncode(c, segmentEnabled), segmentEnabled);
      && d.Ok?
      && d.value.header == c.header.(frameSequenceNumber := 0)
      && d.value.data == payload
      && d.value.segmentHeader == c.segmentHeader == ZeroSegmentHeader
      && d.value.fecf == Crc16(TcFramePrefix(c, segmentEnabled))
  {
    TcRoundTrip(TcCreate(spacecraftId, virtualChannelId, frameSeqNum, payload).value, segmentEnabled);
  }

  /** The frame of the example program: spacecraft 0x123, virtual channel 1,
      sequence number 42 and a 13-octet command. Its frame length field is
      12 (payload length minus one), not the frame size minus one; it
      occupies 20 octets, or 21 with a segment header "no segmentation, MAP
      0" attached, and decodes with sequence number 0. */
  lemma TcExampleFrame(command: seq<bv8>)
    requires |command| == 13
    ensures var r := TcCreate(0x123, 1, 42, command);
      && r.Ok?
      && r.value.header.frameLength == 12
      && |TcEncode(r.value, false)| == 20
      && TcEncode(r.value, false)[..5] == [0x01, 0x23, 0x04, 0x00, 0x0C]
      && TcDecode(TcEncode(r.value, false), false).value.header.frameSequenceNumber == 0
    ensures var s := TcSetSegmentHeader(TcCreate(0x123, 1, 42, command).value, TC_SEQ_FLAG_NO_SEG as bv8, 0);
      && |TcEncode(s, true)| == 21
      && TcEncode(s, true)[..6] == [0x01, 0x23, 0x04, 0x00, 0x0C, 0xC0]
      && TcDecode(TcEncode(s, true), true).value.segmentHeader == TcSegmentHeader(TC_SEQ_FLAG_NO_SEG, 0)
  {
    var c := TcCreate(0x123, 1, 42, command).value;
    assert c.header == TcHeader(0, 0, 0, 0, 0x123, 1, 12, 42);
    assert TcHeaderBytes(c.header) == [0x01, 0x23, 0x04, 0x00, 0x0C];
    assert TcEncode(c, false)[..5] == TcFramePrefix(c, false)[..5];
    TcRoundTrip(c, false);
    var s := TcSetSegmentHeader(c, TC_SEQ_FLAG_NO_SEG as bv8, 0);
    assert s.segmentHeader == TcSegmentHeader(TC_SEQ_FLAG_NO_SEG, 0);
    assert TcSegmentHeaderByte(s.segmentHeader) == 0xC0;
    assert TcEncode(s, true)[..6] == TcFramePrefix(s, true)[..6];
    TcRoundTrip(s, true);
  }
}
