/** Telemetry frame types and sizes (CCSDS 132.0-B). The header carries the
    four subfields of the data field status word that the codec reads and
    writes; their widths (1, 1, 2 and 11 bits) are those of the decoder's
    masks. */
module TmTypes {

  const TM_PRIMARY_HEADER_SIZE: nat := 6
  const TM_FRAME_ERROR_CONTROL_SIZE: nat := 2
  const TM_MAX_DATA_SIZE: nat := 1024

  /** Primary header fields with their bit-field widths. `dataFieldStatus`
      is declared as a whole 16-bit word; the codec uses only its value
      shifted into the top two bits of the status word. */
  datatype TmHeader = TmHeader(
    version: bv2,
    spacecraftId: bv10,
    virtualChannelId: bv3,
    ocfFlag: bv1,
    masterChannelFrameCount: bv8,
    virtualChannelFrameCount: bv8,
    dataFieldStatus: bv16,
    syncFlag: bv1,
    packetOrderFlag: bv1,
    segmentLengthId: bv2,
    firstHeaderPointer: bv11)

  const ZeroTmHeader := TmHeader(0, 0, 0, 0, 0, 0, 0, 0, 0, 0, 0)

  /** The payload: `data_length` bytes of the 1024-byte `data` array. */
  type TmPayload = s: seq<bv8> | |s| <= TM_MAX_DATA_SIZE

  /** The value of a TM frame struct. */
  datatype TmFrameValue = TmFrameValue(header: TmHeader, data: TmPayload, fecf: bv16)

  /** A frame struct after `memset(frame, 0, ...)`. */
  const ZeroTmFrame := TmFrameValue(ZeroTmHeader, [], 0)
}
