/** Telecommand frame types and sizes (CCSDS 232.0-B). Every header field is
    a bit-vector of exactly the width the C bit-field declares, so a stored
    value always fits its field. */
module TcTypes {

  const TC_PRIMARY_HEADER_SIZE: nat := 5
  const TC_FRAME_ERROR_CONTROL_SIZE: nat := 2
  const TC_MAX_DATA_SIZE: nat := 1024
  /** Size of the optional segment header, when that feature is built in. */
  const TC_SEGMENT_HEADER_SIZE: nat := 1

  /** Sequence flag values of the segment header (table 4-2 of CCSDS 232.0-B-4). */
  const TC_SEQ_FLAG_CONTINUE: bv2 := 0
  const TC_SEQ_FLAG_FIRST: bv2 := 1
  const TC_SEQ_FLAG_LAST: bv2 := 2
  const TC_SEQ_FLAG_NO_SEG: bv2 := 3

  /** The four meanings of the 2-bit sequence flags field. */
  datatype SequenceFlag = Continuing | First | Last | NoSegmentation {
    function Code(): bv2 {
      match this
      case Continuing => TC_SEQ_FLAG_CONTINUE
      case First => TC_SEQ_FLAG_FIRST
      case Last => TC_SEQ_FLAG_LAST
      case NoSegmentation => TC_SEQ_FLAG_NO_SEG
    }
  }

  /** Every 2-bit code names a sequence flag. */
  function SequenceFlagOf(code: bv2): (f: SequenceFlag)
    ensures f.Code() == code
  {
    if code == TC_SEQ_FLAG_CONTINUE then Continuing
    else if code == TC_SEQ_FLAG_FIRST then First
    else if code == TC_SEQ_FLAG_LAST then Last
    else NoSegmentation
  }

  /** ... and distinct flags have distinct codes, so the field takes exactly
      four values. */
  lemma SequenceFlagCodeBijective(f: SequenceFlag, g: SequenceFlag)
    ensures SequenceFlagOf(f.Code()) == f
    ensures f.Code() == g.Code() <==> f == g
  {
  }

  /** Segment header: sequence flags (2 bits) and MAP identifier (6 bits). */
  datatype TcSegmentHeader = TcSegmentHeader(sequenceFlags: bv2, mapId: bv6)

  const ZeroSegmentHeader := TcSegmentHeader(0, 0)

  /** Primary header fields with their bit-field widths. */
  datatype TcHeader = TcHeader(
    version: bv2,
    bypassFlag: bv1,
    controlCommandFlag: bv1,
    reserved: bv2,
    spacecraftId: bv10,
    virtualChannelId: bv6,
    frameLength: bv10,
    frameSequenceNumber: bv8)

  const ZeroTcHeader := TcHeader(0, 0, 0, 0, 0, 0, 0, 0)

  /** The payload: `data_length` bytes of the 1024-byte `data` array. */
  type TcPayload = s: seq<bv8> | |s| <= TC_MAX_DATA_SIZE

  /** The value of a TC frame struct. `useSegmentHeader` is the struct's flag
      of that name; nothing in the codec reads it. */
  datatype TcFrameValue = TcFrameValue(
    header: TcHeader,
    useSegmentHeader: bv8,
    segmentHeader: TcSegmentHeader,
    data: TcPayload,
    fecf: bv16)

  /** A frame struct after `memset(frame, 0, ...)`. */
  const ZeroTcFrame := TcFrameValue(ZeroTcHeader, 0, ZeroSegmentHeader, [], 0)
}
