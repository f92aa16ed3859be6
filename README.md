# SDLP frame codecs in Dafny

This project models the two frame codecs of a small C library for the CCSDS
Space Data Link Protocols:

- **Telecommand (TC).** It builds, encodes and decodes TC frames (CCSDS 232.0-B).
  - There is a 5-octet primary header.
  - An optional 1-octet segment header follows it, compiled in with `TC_SEGMENT_HEADER_ENABLED`.
  - Then comes a payload of up to 1024 octets.
  - A 2-octet frame error control field (FECF) ends the frame. It is the CRC-16 of everything before it, high octet first.
- **Telemetry (TM).** It builds, encodes and decodes TM frames (CCSDS 132.0-B).
  - There is a 6-octet primary header, the payload and the FECF.
  - Frame creation stamps each frame with the next value of a module-wide 8-bit master channel frame counter.

The files and modules:

- `sdlp_common.dfy` (`SdlpCommon`): the version constant and the status codes. It also has the big-endian split of a 16-bit word, the CRC-16 and the two buffer writes shared by both encoders: `memcpy`, and appending the FECF.
- `tc_types.dfy` and `tm_types.dfy` hold the frame types.
  - Every header field is a bit-vector of the width the C bit-field declares, so "every stored value fits its field" holds by typing.
  - The frame's `data`/`data_length` pair is one sequence of at most 1024 octets.
- `tc_codec.dfy` and `tm_codec.dfy` hold the operations.
  - Each operation is a pure specification function over frame values and byte sequences (`TcCreate`, `TcEncode`, `TcDecode`, ...).
  - Next to it is an imperative method that does what the C function does, step by step, on the caller-owned frame struct. The struct is a class (`TcFrame`, `TmFrame`), and the method fills it field by field, or writes a caller `array<bv8>` through a running offset.
  - Each method's postcondition ties it to the specification function.
  - The TM counter, a `static` variable in C, is the field of the class `TmFrameGenerator`.
- `tc_properties.dfy` and `tm_properties.dfy` hold the lemmas that relate the operations:
  - decode after encode;
  - what the wire format loses;
  - the counter sequence;
  - the frames of the two example programs.

The segment-header build option is the parameter `segmentEnabled` of TC encode and decode. Every TC lemma about encode or decode is stated for an arbitrary setting, except `TcExampleFrame`, which encodes one frame without and one with the option.

The model follows the code as written, including where it departs from the standards it names. Lemmas state each departure:

- **The TC frame sequence number is never written or read**, although CCSDS 232.0-B carries it in octet 4 of the primary header. Decode always yields 0.
  - `TcProperties.TcSequenceNumberNotEncoded`, `TcProperties.TcRoundTrip`.
- **The TC header layout differs from CCSDS 232.0-B.**
  - Octet 2 holds the virtual channel id with its low two bits zero.
  - Octets 3-4 hold the 10-bit frame length as a 16-bit word, where the standard puts the sequence number in octet 4.
  - `TcProperties.TcHeaderLayout`.
- **The TC frame length field is `data_length - 1` reduced to 10 bits**, not the total frame length minus one. An empty payload gives 1023.
  - `TcCodec.TcCreate`.
- **Only the control-command flag decides whether a TC segment header is written and read** (src/sdlp_tc.c:60 and 102). The comment on `use_segment_header` at include/sdlp_tc.h:47 says the field is non-zero when a segment header is present, but neither encode nor decode reads it, and decode clears it.
  - `TcProperties.TcSegmentHeaderPresenceIgnoresFlag`.
- **The TM data field status word packs 17 bits into 16**, where CCSDS 132.0-B gives every subfield bits of its own.
  - The segment length id is shifted to bits 10-11, and the 11-bit first header pointer occupies bits 0-10.
  - So a created frame (segment length id 3, pointer 0) decodes with first header pointer 0x400.
  - `TmProperties.TmCreatedFrameDecodesPointer400`, `TmProperties.TmStatusWordOverlap`.
- **The TM subfields have no declaration.** The TM source writes and reads sync flag, packet order flag, segment length id and first header pointer, but the header type never declares them. `TmTypes.TmHeader` adds them with the widths of the decoder's masks: 1, 1, 2 and 11 bits.
- **The decoded payload length is stored in the 16-bit `data_length`**, so it is taken modulo 65536. A buffer 65536 octets longer than the overhead is not rejected as too long. It decodes exactly when the two octets after the headers match the CRC, and then as an empty payload.
  - `TcProperties.TcDecodeLengthWraps`, `TmProperties.TmDecodeLengthWraps`.

## Model

| member | source | states |
|---|---|---|
| SdlpCommon.Error.Code | include/sdlp_common.h:9-13 | every error is reported as a negative integer |
| SdlpCommon.StatusCodesDistinct | include/sdlp_common.h:9-13 | two outcomes have the same integer code exactly when they are the same outcome, so no error shares the success code 0 |
| SdlpCommon.ToUint16 | src/sdlp_tc.c:109-115 | storing a size in the 16-bit `data_length` yields a value below 65536 and no larger than the size, equal to it when it fits |
| SdlpCommon.BigEndianWord | src/sdlp_tc.c:125 | joining two octets into a big-endian word keeps the first as its high octet and the second as its low octet |
| SdlpCommon.BigEndianRoundTrip | src/sdlp_tc.c:56-57 | splitting a 16-bit word high octet first and joining the octets again gives back the word |
| SdlpCommon.CopyBytes | src/sdlp_tc.c:66 | `memcpy` into the buffer at an offset replaces exactly those octets with the source and leaves every other octet unchanged |
| SdlpCommon.AppendFecf | src/sdlp_tc.c:69-71 | the two octets after `offset` receive the CRC-16 of all octets before it, high octet first; the offset advances by 2 and no other octet changes |
| SdlpCommon.Crc16CheckValue | include/sdlp_common.h:15 | the checksum is CRC-16/CCITT-FALSE: the digits "123456789" check to 0x29B1 |
| SdlpCommon.CrcUpdateAppend | include/sdlp_common.h:15 | the checksum of a concatenation is the checksum of the second part, run on from the checksum of the first |
| TcTypes.SequenceFlagOf | include/sdlp_tc.h:14-24 | every 2-bit sequence flags value names one of the four meanings continuing, first, last and no segmentation |
| TcTypes.SequenceFlagCodeBijective | include/sdlp_tc.h:14-24 | the four meanings have distinct codes, and decoding a meaning's code gives it back |
| TcCodec.TcCreate | src/sdlp_tc.c:4-26 | create fails with INVALID_PARAM exactly when the payload exceeds 1024 octets. Otherwise the identifiers are masked to 10 and 6 bits (kept when they fit), and the sequence number and payload are kept. The frame length is `data_length - 1` mod 1024 (1023 for an empty payload). Version, bypass, control-command and reserved bits are 0, as are `use_segment_header` and the segment header |
| TcCodec.TcSetSegmentHeader | src/sdlp_tc.c:136-145 | the sequence flags and MAP id are stored masked to 2 and 6 bits, and no other field changes |
| TcCodec.TcEncodedSize | src/sdlp_tc.c:34-41 | the encoded size is header, payload and trailer, plus the segment header octet when written; it lies between 7 and 1032 |
| TcCodec.TcEncode | src/sdlp_tc.c:47-73 | encode emits exactly the encoded size in octets: the header, optional segment header and payload, followed by their CRC, so the emitted frame carries a valid FECF |
| TcCodec.TcHeaderBytesLayout | src/sdlp_tc.c:49-57 | the five header octets carry the version in the top 2 bits of octet 0, then the bypass flag, the control-command flag and the 2 reserved bits, then the top 2 spacecraft id bits. Octet 1 holds the low 8 spacecraft id bits, octet 2 the virtual channel id over 2 zero bits, and octets 3-4 the frame length as a big-endian word |
| TcCodec.TcSegmentHeaderByteLayout | src/sdlp_tc.c:61-62 | the segment header octet carries the sequence flags in its top 2 bits and the MAP id in the low 6 |
| TcCodec.TcParseHeaderReencodes | src/sdlp_tc.c:88-99 | encoding the header decode parses from five octets gives them back, except the 2 spare low bits of octet 2 and the top 6 bits of octet 3, which come back 0 |
| TcCodec.TcParseSegmentHeader | src/sdlp_tc.c:106-107 | the header parsed from any octet encodes back to that octet |
| TcCodec.TcDecode | src/sdlp_tc.c:78-134 | INVALID_PARAM exactly for buffers under 7 octets. A success holds the header parsed from octets 0-4 and `use_segment_header` 0. Its segment header is parsed from octet 5 when one is expected, and is zero otherwise. Its `fecf` is the CRC of all octets but the last two |
| TcCodec.TcDecodePayload | src/sdlp_tc.c:117-133 | after the headers, decode gives INVALID_FRAME exactly when the 16-bit payload length exceeds 1024, and otherwise fails only with CRC_MISMATCH. When the length fits, it succeeds exactly when the word after the payload equals the CRC of all octets but the last two. A success keeps the parsed headers and takes as payload that many octets from the offset, with that CRC as `fecf` |
| TcCodec.TcDecodeOutcome | src/sdlp_tc.c:78-134 | below 65536 octets, decode reports INVALID_FRAME exactly when the buffer cannot hold the headers or the payload exceeds 1024. It reports CRC_MISMATCH exactly when the length is right but the trailer is not the CRC. A success has a valid FECF and the payload between headers and trailer |
| TcCodec.TcFrame.Create | src/sdlp_tc.c:4-26 | the status and the new frame are those of TcCreate, and a rejected call leaves the frame as it was |
| TcCodec.TcFrame.constructor | src/sdlp_tc.c:11 | a new frame struct is all zeros, as after `memset` |
| TcCodec.TcFrame.SetSegmentHeader | src/sdlp_tc.c:136-145 | succeeds and leaves the frame as TcSetSegmentHeader describes |
| TcCodec.TcFrame.Encode | src/sdlp_tc.c:28-76 | BUFFER_TOO_SMALL exactly when the buffer is shorter than the encoded size, and then nothing is written; otherwise the first `encoded_size` octets are TcEncode of the frame and the rest of the buffer is unchanged |
| TcCodec.TcFrame.Decode | src/sdlp_tc.c:78-134 | the status is that of TcDecode, a success leaves the frame equal to its result, and INVALID_PARAM leaves the frame as it was |
| TcProperties.TcHeaderRoundTrip | src/sdlp_tc.c:49-57 | parsing the five header octets encode writes recovers every header field except the sequence number, which comes back 0 |
| TcProperties.TcSegmentHeaderRoundTrip | src/sdlp_tc.c:61-62 | the segment header octet is parsed back to the same sequence flags and MAP id |
| TcProperties.TcSegmentHeaderPresenceAgrees | src/sdlp_tc.c:102 | decode expects a segment header in an encoded frame exactly when encode wrote one |
| TcProperties.TcDecodedImage | src/sdlp_tc.c:84-125 | decode yields the payload, sequence number 0 and `use_segment_header` 0, plus the segment header when one was written and a zero one otherwise |
| TcProperties.TcRoundTrip | src/sdlp_tc.c:28-134 | decoding what encode wrote succeeds with either build setting and yields TcDecodedImage: the same header up to the sequence number, the same payload, and the CRC as `fecf` |
| TcProperties.TcSequenceNumberNotEncoded | src/sdlp_tc.c:49-57 | frames differing only in the sequence number encode to the same octets |
| TcProperties.TcSegmentHeaderPresenceIgnoresFlag | src/sdlp_tc.c:59-64 | `use_segment_header` never changes the encoding; a segment header that is not written has no influence; a written one lands at octet 5 |
| TcProperties.TcHeaderLayout | src/sdlp_tc.c:49-57 | in an encoded frame, octet 0 carries the version, bypass flag, control-command flag, reserved bits and top 2 spacecraft id bits. Octet 1 carries the low 8 bits, octet 2 the virtual channel id with its low 2 bits zero, and octets 3-4 the frame length as a big-endian word |
| TcProperties.TcDecodeLengthWraps | src/sdlp_tc.c:109-131 | with either build setting, a buffer 65536 octets longer than its header overhead is not rejected as too long. It decodes exactly when the two octets right after the headers equal the CRC of all octets but the last two, and then as an empty payload with those octets as its FECF |
| TcProperties.TcCreateEncodeDecode | src/sdlp_tc.c:4-134 | a created frame survives encode and decode with the same header except a zero sequence number, the same payload and a zero segment header |
| TcProperties.TcExampleFrame | src/sdlp_tc.c:4-76 | the example frame has frame length 12 and 20 octets beginning 01 23 04 00 0C, and decodes with sequence number 0. With a segment header "no segmentation, MAP 0" it has 21 octets with octet 5 = C0, decoded back to the same segment header |
| TmCodec.TmCreate | src/sdlp_tm.c:6-31 | create fails with INVALID_PARAM exactly when the payload exceeds 1024 octets. Otherwise the identifiers are masked to 10 and 3 bits, the counter value becomes the master channel frame count, segment length id is 3 and the payload is kept. Version, OCF flag, virtual channel frame count, status, sync flag, packet order flag and first header pointer are 0 |
| TmCodec.TmCounterAfter | src/sdlp_tm.c:9-19 | the counter advances by one modulo 256 exactly when create succeeds |
| TmCodec.TmEncodedSize | src/sdlp_tm.c:39-44 | the encoded size is 8 plus the payload length, between 8 and 1032 |
| TmCodec.TmEncode | src/sdlp_tm.c:46-71 | encode emits exactly the encoded size in octets: header and payload followed by their CRC, so the emitted frame carries a valid FECF |
| TmCodec.TmHeaderBytes | src/sdlp_tm.c:48-62 | the six header octets carry the version and the top 6 spacecraft id bits in octet 0. Octet 1 carries the low 4 spacecraft id bits, the virtual channel id and the OCF flag. Octets 2 and 3 carry the two frame counts, and octets 4-5 the status word as a big-endian word |
| TmCodec.TmParseHeaderReencodes | src/sdlp_tm.c:86-102 | encoding the header decode parses from any six octets gives exactly those six octets back |
| TmCodec.StatusWordRebuilt | src/sdlp_tm.c:56-60 | reassembling the five subfields decode extracts from a status word gives back the word |
| TmCodec.TmDecode | src/sdlp_tm.c:76-123 | INVALID_PARAM exactly for buffers under 8 octets. INVALID_FRAME exactly when the 16-bit payload length exceeds 1024. When it fits, decode succeeds exactly when the word after the payload equals the CRC of all octets but the last two. A success holds the header parsed from octets 0-5, that many payload octets from octet 6, and that CRC as `fecf` |
| TmCodec.TmFrame.Encode | src/sdlp_tm.c:33-74 | BUFFER_TOO_SMALL exactly when the buffer is shorter than the encoded size, and then nothing is written; otherwise the first `encoded_size` octets are TmEncode of the frame and the rest of the buffer is unchanged |
| TmCodec.TmFrame.Decode | src/sdlp_tm.c:76-123 | the status is that of TmDecode, a success leaves the frame equal to its result, and INVALID_PARAM leaves the frame as it was |
| TmCodec.TmFrame.constructor | src/sdlp_tm.c:13 | a new frame struct is all zeros, as after `memset` |
| TmCodec.TmFrameGenerator.constructor | src/sdlp_tm.c:4 | the counter starts at 0 |
| TmCodec.TmFrameGenerator.CreateFrame | src/sdlp_tm.c:6-31 | the status and the new frame are those of TmCreate at the counter's prior value; a rejected call leaves the frame as it was; the counter becomes TmCounterAfter |
| TmProperties.TmHeaderRoundTrip | src/sdlp_tm.c:86-102 | parsing the six header octets encode writes yields the header with the status cut to 2 bits and bit 10 of the status word read into both segment length id and first header pointer |
| TmProperties.TmIdentificationRoundTrip | src/sdlp_tm.c:86-95 | version, spacecraft id, virtual channel id, OCF flag and both frame counts are read back unchanged |
| TmProperties.TmStatusRoundTrip | src/sdlp_tm.c:97-102 | the five status subfields are read back as the merged header says |
| TmProperties.TmStatusFlagsRoundTrip | src/sdlp_tm.c:98-100 | the status comes back cut to its two low bits; the sync and packet order flags come back unchanged |
| TmProperties.TmSharedBitRoundTrip | src/sdlp_tm.c:101-102 | segment length id and first header pointer come back with bit 10 of the word ORed into both |
| TmProperties.StatusWordSplit | src/sdlp_tm.c:56-60 | the decoder's shifts and masks applied to the assembled status word extract each subfield, with the overlap at bit 10 |
| TmProperties.TmHeaderSurvivesIff | src/sdlp_tm.c:97-102 | a header comes back unchanged exactly when its status fits in 2 bits and the top pointer bit equals the low segment length id bit |
| TmProperties.TmRoundTrip | src/sdlp_tm.c:33-123 | decoding what encode wrote succeeds and yields the merged header, the same payload and the CRC as `fecf` |
| TmProperties.SharedBit10 | src/sdlp_tm.c:59-60 | with the low bit of the segment length id set, setting bit 10 of the first header pointer does not change the status word |
| TmProperties.TmStatusWordOverlap | src/sdlp_tm.c:56-62 | two headers differing only in pointer bit 10 encode identically when the low segment length id bit is set |
| TmProperties.TmCreatedFrameDecodesPointer400 | src/sdlp_tm.c:24-25 | a created frame decodes successfully with first header pointer 0x400, the rest of its header and its payload unchanged |
| TmProperties.TmDecodeOutcome | src/sdlp_tm.c:76-123 | below 65536 octets, decode reports INVALID_FRAME exactly when the payload exceeds 1024. It reports CRC_MISMATCH exactly when the payload fits and the trailer is not the CRC. A success carries the octets between header and trailer |
| TmProperties.TmDecodeLengthWraps | src/sdlp_tm.c:105-120 | a buffer of 65536 + 8 octets is not rejected as too long. It decodes exactly when octets 6-7 equal the CRC of all octets but the last two, and then as an empty payload with those octets as its FECF |
| TmProperties.TmConsecutiveFrameCounts | src/sdlp_tm.c:19 | consecutive successful creates from counter N number their frames N, N+1, N+2, ... modulo 256, each with its own payload |
| TmProperties.TmExampleFrame | src/sdlp_tm.c:6-74 | the example frame (spacecraft 0x123, virtual channel 2, 31-octet payload, counter 0) has 39 octets beginning 12 34 00 00 0C 00 and decodes with first header pointer 0x400 |

## Left out

- Null pointers: the checks on `frame`, `data`, `buffer` and `encoded_size` are left out because Dafny references and arrays are never null.
- SdlpCommon.Crc16: `sdlp_crc16` is only declared in the library, with no body. `SdlpCommon.Crc16` is given the CRC-16 profile CCSDS prescribes for the FECF: polynomial 0x1021, preset 0xFFFF, no reflection. Only `Crc16CheckValue` and `CrcUpdateAppend` depend on that body. Every codec property is stated relative to `Crc16`.
  - The claim that a single flipped bit is always detected needs the real CRC, so it is not stated.
- The C memory representation is not modelled:
  - compiler bit-field layout and struct padding;
  - the octets of `data[]` beyond `data_length`.
  The payload is a sequence whose length is `data_length`.
- TcCodec.TcFrame.Decode and `TmCodec.TmFrame.Decode` state nothing about the frame after INVALID_FRAME or CRC_MISMATCH. The C fills it partly before returning, and callers must not read it.
- TcCodec.TcFrame.Decode and `TmCodec.TmFrame.Decode` take the received octets as a sequence. `buffer_size` is its length; decode only reads the buffer.
- TcCodec.TcFrame.Encode and `TmCodec.TmFrame.Encode` take `buffer_size` to be the length of the array. The C trusts the caller's size.
- TcCodec.TcFrame.SetSegmentHeader requires the control-command flag to be clear. The header comment makes this the caller's obligation; the C does not check it.
- TcCodec.TcFrame.Create and `TmCodec.TmFrameGenerator.CreateFrame` require a payload of at most 65535 octets, the range of the `uint16_t data_length` parameter.
- TmCodec.TmFrameGenerator.CreateFrame: the counter is not shared between threads. The C library is single-threaded.
- The example programs only print. Their frames appear as `TcProperties.TcExampleFrame` and `TmProperties.TmExampleFrame`.
