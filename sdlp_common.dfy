/** Shared vocabulary of both frame codecs: the protocol version, the status
    codes every operation returns, the frame error control checksum and the
    big-endian split of a 16-bit word. */
module SdlpCommon {

  /** Transfer frame version number written by both codecs. */
  const SDLP_VERSION: bv2 := 0

  /** The four ways an operation can fail. */
  datatype Error = InvalidParam | BufferTooSmall | InvalidFrame | CrcMismatch {
    /** The integer the C interface returns for this error. */
    function Code(): (c: int)
      ensures c < 0
    {
      match this
      case InvalidParam => -1
      case BufferTooSmall => -2
      case InvalidFrame => -3
      case CrcMismatch => -4
    }
  }

  /** Outcome of an operation that changes state in place. */
  datatype Status = Success | Failure(error: Error) {
    function Code(): int {
      if Success? then 0 else error.Code()
    }
  }

  /** Outcome of a specification function: a value or the error the
      operation reports. */
  datatype Result<T> = Ok(value: T) | Err(error: Error) {
    function ToStatus(): Status {
      if Ok? then Success else Failure(error)
    }
  }

  /** Distinct errors are reported with distinct codes, and no error uses the
      success code. */
  lemma StatusCodesDistinct(s: Status, t: Status)
    ensures s.Code() == t.Code() <==> s == t
  {
    if s.Failure? && t.Failure? {
      match s.error
      case InvalidParam =>
      case BufferTooSmall =>
      case InvalidFrame =>
      case CrcMismatch =>
    }
  }

  /** C's conversion of a size to a 16-bit unsigned field such as
      `data_length`: the value is taken modulo 65536. */
  function ToUint16(n: nat): (r: nat)
    ensures r < 0x1_0000 && r <= n
    ensures n < 0x1_0000 ==> r == n
  {
    n % 0x1_0000
  }

  /** High byte of a 16-bit word, as written first on the wire. */
  function HighByte(w: bv16): bv8 {
    ((w >> 8) & 0xFF) as bv8
  }

  /** Low byte of a 16-bit word, as written second on the wire. */
  function LowByte(w: bv16): bv8 {
    (w & 0xFF) as bv8
  }

  /** The 16-bit word read from two bytes, high byte first. */
  function BigEndianWord(hi: bv8, lo: bv8): (w: bv16)
    ensures HighByte(w) == hi && LowByte(w) == lo
  {
    ((hi as bv16) << 8) | lo as bv16
  }

  /** Reading back the two bytes a word was split into yields the word. */
  lemma BigEndianRoundTrip(w: bv16)
    ensures BigEndianWord(HighByte(w), LowByte(w)) == w
  {
  }

  /** The two trailing frame error control bytes for checksum `crc`. */
  function FecfBytes(crc: bv16): (r: seq<bv8>)
    ensures |r| == 2 && BigEndianWord(r[0], r[1]) == crc
  {
    [HighByte(crc), LowByte(crc)]
  }

  /** A byte sequence carries a valid frame error control field when it ends
      in the big-endian checksum of all bytes before it. */
  predicate HasValidFecf(frame: seq<bv8>) {
    |frame| >= 2 &&
    BigEndianWord(frame[|frame| - 2], frame[|frame| - 1]) == Crc16(frame[..|frame| - 2])
  }

  /** A buffer that holds `written` followed by the rest of `original` and
      has `src` copied right after `written` holds `written + src` followed
      by the rest of `original`. */
  lemma SpliceAfter(written: seq<bv8>, src: seq<bv8>, original: seq<bv8>, before: seq<bv8>, after: seq<bv8>)
    requires |written| + |src| <= |original|
    requires before == written + original[|written|..]
    requires after == before[..|written|] + src + before[|written| + |src|..]
    ensures after == written + src + original[|written| + |src|..]
  {
    assert before[..|written|] == written;
    assert before[|written| + |src|..] == original[|written| + |src|..];
  }

  /** memcpy(&buffer[offset], src, |src|): the bytes of `src` replace those
      at `offset`, and every other byte stays. */
  method CopyBytes(buffer: array<bv8>, offset: nat, src: seq<bv8>)
    requires offset + |src| <= buffer.Length
    modifies buffer
    ensures buffer[..] == old(buffer[..offset]) + src + old(buffer[offset + |src|..])
  {
    forall i | 0 <= i < |src| {
      buffer[offset + i] := src[i];
    }
    assert buffer[..] == old(buffer[..offset]) + src + old(buffer[offset + |src|..]);
  }

  /** The tail shared by both encoders: the checksum of the `offset` bytes
      already written is stored after them, high byte first, and the new
      offset is returned. */
  method AppendFecf(buffer: array<bv8>, offset: nat) returns (next: nat)
    requires offset + 2 <= buffer.Length
    modifies buffer
    ensures next == offset + 2
    ensures buffer[..] == old(buffer[..offset]) + FecfBytes(Crc16(old(buffer[..offset]))) + old(buffer[offset + 2..])
  {
    var crc := Crc16(buffer[..offset]);
    next := offset;
    buffer[next] := HighByte(crc);
    next := next + 1;
    buffer[next] := LowByte(crc);
    next := next + 1;
    assert buffer[..] == old(buffer[..offset]) + FecfBytes(crc) + old(buffer[offset + 2..]);
  }


  /** The checksum of the frame error control field. The C library only
      declares it; this body is the CRC-16-CCITT profile that CCSDS prescribes
      for the field (polynomial 0x1021, preset 0xFFFF, no reflection, no final
      xor). No property of the codecs depends on this body. */
  function Crc16(data: seq<bv8>): bv16 {
    CrcUpdate(0xFFFF, data)
  }

  function CrcUpdate(crc: bv16, data: seq<bv8>): bv16
    decreases |data|
  {
    if data == [] then crc
    else CrcUpdate(CrcByte(crc, data[0]), data[1..])
  }

  /** One octet into the checksum, most significant bit first. */
  function CrcByte(crc: bv16, x: bv8): bv16 {
    CrcShift(crc ^ ((x as bv16) << 8), 8)
  }

  function CrcShift(crc: bv16, bits: nat): bv16
    decreases bits
  {
    if bits == 0 then crc
    else if crc & 0x8000 != 0 then CrcShift((crc << 1) ^ 0x1021, bits - 1)
    else CrcShift(crc << 1, bits - 1)
  }

  /** The checksum is the CRC-16/CCITT-FALSE profile: its catalogued check
      value, the checksum of the ASCII digits "123456789", is 0x29B1. */
  lemma Crc16CheckValue()
    ensures Crc16([0x31, 0x32, 0x33, 0x34, 0x35, 0x36, 0x37, 0x38, 0x39]) == 0x29B1
  {
    assert CrcByte(0xA12B, 0x39) == 0x29B1;
    assert CrcUpdate(0xA12B, [0x39]) == 0x29B1;
    assert CrcByte(0x7718, 0x38) == 0xA12B;
    assert CrcUpdate(0x7718, [0x38, 0x39]) == 0x29B1;
    assert CrcByte(0x2EF4, 0x37) == 0x7718;
    assert CrcUpdate(0x2EF4, [0x37, 0x38, 0x39]) == 0x29B1;
    assert CrcByte(0x4560, 0x36) == 0x2EF4;
    assert CrcUpdate(0x4560, [0x36, 0x37, 0x38, 0x39]) == 0x29B1;
    assert CrcByte(0x5349, 0x35) == 0x4560;
    assert CrcUpdate(0x5349, [0x35, 0x36, 0x37, 0x38, 0x39]) == 0x29B1;
    assert CrcByte(0x5BCE, 0x34) == 0x5349;
    assert CrcUpdate(0x5BCE, [0x34, 0x35, 0x36, 0x37, 0x38, 0x39]) == 0x29B1;
    assert CrcByte(0x3DBA, 0x33) == 0x5BCE;
    assert CrcUpdate(0x3DBA, [0x33, 0x34, 0x35, 0x36, 0x37, 0x38, 0x39]) == 0x29B1;
    assert CrcByte(0xC782, 0x32) == 0x3DBA;
    assert CrcUpdate(0xC782, [0x32, 0x33, 0x34, 0x35, 0x36, 0x37, 0x38, 0x39]) == 0x29B1;
    assert CrcByte(0xFFFF, 0x31) == 0xC782;
    assert CrcUpdate(0xFFFF, [0x31, 0x32, 0x33, 0x34, 0x35, 0x36, 0x37, 0x38, 0x39]) == 0x29B1;
  }

  /** The checksum can be computed over a buffer piece by piece: running it
      over `a + b` is running it over `a`, then over `b` from that value. */
  lemma {:induction false} CrcUpdateAppend(crc: bv16, a: seq<bv8>, b: seq<bv8>)
    ensures CrcUpdate(crc, a + b) == CrcUpdate(CrcUpdate(crc, a), b)
    decreases |a|
  {
    if a != [] {
      assert (a + b)[1..] == a[1..] + b;
      CrcUpdateAppend(CrcByte(crc, a[0]), a[1..], b);
    } else {
      assert a + b == b;
    }
  }
}
