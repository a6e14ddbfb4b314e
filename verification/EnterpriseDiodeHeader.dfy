/** Packets, their 112-byte wire header and the size arithmetic
    (src/server/Packet.hpp, src/server/Parsing.hpp, src/diodeheader/EnterpriseDiodeHeader.cpp,
    src/client/ClientWrapper.cpp). */
module EnterpriseDiode {
  import opened Common
  import opened CD = CloakedDagger

  const HEADER_SIZE_IN_BYTES: nat := 112

  datatype HeaderParams = HeaderParams(
    sessionId: uint32, frameCount: uint32, eOFFlag: bool, cloakedDaggerHeader: CloakedDaggerHeader)

  datatype Packet = Packet(headerParams: HeaderParams, payload: BytesBuffer)

  /** What is put on the wire: the header buffer and the payload buffer. */
  datatype Datagram = Datagram(header: BytesBuffer, payload: BytesBuffer)

  function ToByte(n: nat): byte
    requires n < 256
  {
    n as bv8
  }

  function FromByte(b: byte): (n: nat)
    ensures n < 256
  {
    b as int
  }

  /** memcpy of a little-endian 32-bit integer out of a buffer, and into one. */
  function ExtractUint32(v: BytesBuffer, pos: nat): uint32
    requires pos + 4 <= |v|
  {
    FromByte(v[pos]) + 0x100 * (FromByte(v[pos + 1]) + 0x100 * (FromByte(v[pos + 2]) + 0x100 * FromByte(v[pos + 3])))
  }

  function EncodeUint32(n: uint32): (s: BytesBuffer)
    ensures |s| == 4
  {
    [ToByte(n % 0x100), ToByte(n / 0x100 % 0x100), ToByte(n / 0x1_0000 % 0x100), ToByte(n / 0x100_0000)]
  }

  /** readHeaderParams: fields at offsets 0, 4 and 8, and the last 48 bytes. */
  function ReadHeaderParams(frame: BytesBuffer): Result<HeaderParams> {
    if |frame| < HEADER_SIZE_IN_BYTES then
      Failure(RuntimeError)
    else
      Success(HeaderParams(
        ExtractUint32(frame, 0), ExtractUint32(frame, 4), frame[8] != 0,
        frame[HEADER_SIZE_IN_BYTES - CD.HEADER_SIZE..HEADER_SIZE_IN_BYTES]))
  }

  function ParsePacket(d: Datagram): Result<Packet> {
    match ReadHeaderParams(d.header)
    case Failure(e) => Failure(e)
    case Success(params) => Success(Packet(params, d.payload))
  }

  /** The header an honest client's buffer holds: no encapsulation header, zero padding. */
  function ClientHeader(sessionId: uint32, frameCount: uint32, eof: bool): (h: BytesBuffer)
    ensures |h| == HEADER_SIZE_IN_BYTES
  {
    EncodeUint32(sessionId) + EncodeUint32(frameCount) + [if eof then 1 else 0] + Zeros(103)
  }

  lemma ByteSuccessor(b: byte)
    requires b != 255
    ensures FromByte(b + 1) == FromByte(b) + 1
  {
  }

  /** Every number below 256 is the value of a byte: count up to it. */
  lemma {:induction false} ByteOf(n: nat) returns (b: byte)
    requires n < 256
    ensures FromByte(b) == n
  {
    b := 0;
    if n > 0 {
      var before := ByteOf(n - 1);
      assert FromByte(255) == 255;
      ByteSuccessor(before);
      b := before + 1;
    }
  }

  lemma ByteRoundTrip(n: nat)
    requires n < 256
    ensures FromByte(ToByte(n)) == n
  {
    var b := ByteOf(n);
    assert ToByte(FromByte(b)) == b;
  }

  lemma Uint32Digits(n: uint32)
    ensures n % 0x100 + 0x100 * (n / 0x100 % 0x100 + 0x100 * (n / 0x1_0000 % 0x100 + 0x100 * (n / 0x100_0000))) == n
  {
  }

  lemma Uint32RoundTrip(n: uint32, v: BytesBuffer, pos: nat)
    requires pos + 4 <= |v| && v[pos..pos + 4] == EncodeUint32(n)
    ensures ExtractUint32(v, pos) == n
  {
    var e := v[pos..pos + 4];
    assert v[pos] == e[0] && v[pos + 1] == e[1] && v[pos + 2] == e[2] && v[pos + 3] == e[3];
    ByteRoundTrip(n % 0x100);
    ByteRoundTrip(n / 0x100 % 0x100);
    ByteRoundTrip(n / 0x1_0000 % 0x100);
    ByteRoundTrip(n / 0x100_0000);
    Uint32Digits(n);
  }

  /** The server reads back exactly what the client put in the header. */
  lemma HeaderRoundTrip(sessionId: uint32, frameCount: uint32, eof: bool)
    ensures ReadHeaderParams(ClientHeader(sessionId, frameCount, eof))
         == Success(HeaderParams(sessionId, frameCount, eof, Zeros(48)))
  {
    var h := ClientHeader(sessionId, frameCount, eof);
    assert h[0..4] == EncodeUint32(sessionId) && h[4..8] == EncodeUint32(frameCount);
    Uint32RoundTrip(sessionId, h, 0);
    Uint32RoundTrip(frameCount, h, 4);
    assert h[64..112] == Zeros(48);
  }

  /** The four bytes of a number, the lowest first. */
  predicate LittleEndian(bytes: BytesBuffer, n: uint32) {
    && |bytes| == 4
    && n == bytes[0] as int + 0x100 * (bytes[1] as int) + 0x1_0000 * (bytes[2] as int)
          + 0x100_0000 * (bytes[3] as int)
  }

  lemma ReadLittleEndian(v: BytesBuffer, pos: nat, bytes: BytesBuffer, n: uint32)
    requires pos + 4 <= |v| && v[pos..pos + 4] == bytes && LittleEndian(bytes, n)
    ensures ExtractUint32(v, pos) == n
  {
    assert v[pos] == bytes[0] && v[pos + 1] == bytes[1] && v[pos + 2] == bytes[2] && v[pos + 3] == bytes[3];
  }

  lemma EncodedLittleEndian(n: uint32)
    ensures LittleEndian(EncodeUint32(n), n)
  {
    var v := EncodeUint32(n);
    assert v[0..4] == v;
    Uint32RoundTrip(n, v, 0);
  }

  /** What the server reads of any header, wherever it comes from: four bytes of session id, four of
      frame count, the flag, 55 bytes that it ignores, and the encapsulation header. */
  lemma AnyHeaderRead(
    header: BytesBuffer, id: BytesBuffer, count: BytesBuffer, flag: byte, filler: BytesBuffer,
    encapsulation: BytesBuffer, more: BytesBuffer, sessionId: uint32, frameCount: uint32)
    requires header == id + count + [flag] + filler + encapsulation + more
    requires LittleEndian(id, sessionId) && LittleEndian(count, frameCount) && |filler| == 55 && |encapsulation| == 48
    ensures ReadHeaderParams(header) == Success(HeaderParams(sessionId, frameCount, flag != 0, encapsulation))
  {
    assert header[0..4] == id && header[4..8] == count && header[8] == flag && header[64..112] == encapsulation;
    ReadLittleEndian(header, 0, id, sessionId);
    ReadLittleEndian(header, 4, count, frameCount);
  }

  /** A header shorter than that is refused, no other one is. */
  lemma ShortHeaderRefused(header: BytesBuffer)
    ensures ReadHeaderParams(header) == Failure(RuntimeError) <==> |header| < 112
  {
  }

  /** The conversion to short, then int: the low 16 bits as a signed number. */
  function ToShort(x: uint16): int {
    if x < 0x8000 then x else x - TWO_16
  }

  /** The conversion of an int to a 16-bit unsigned number. */
  function ToUint16(x: int): uint16 {
    x % TWO_16
  }

  function CalculateMaxBufferSize(mtuSize: uint16): Result<uint16> {
    if mtuSize < 576 then Failure(RuntimeError) else Success(ToUint16(ToShort(mtuSize) - 20 - 8))
  }

  function CalculatePayloadSize(mtuSize: uint16): Result<uint16> {
    match CalculateMaxBufferSize(mtuSize)
    case Failure(e) => Failure(e)
    case Success(size) => Success(ToUint16(ToShort(size) - ToShort(HEADER_SIZE_IN_BYTES)))
  }

  /** The trips through signed 16-bit numbers cancel: every accepted MTU loses the 20-byte
      IPv4 and 8-byte UDP headers ... */
  lemma MaxBufferSizeForMtu(mtuSize: uint16)
    ensures CalculateMaxBufferSize(mtuSize) == if mtuSize < 576 then Failure(RuntimeError) else Success(mtuSize - 28)
  {
  }

  /** ... and the payload also the 112-byte header. */
  lemma PayloadSizeForMtu(mtuSize: uint16)
    ensures CalculatePayloadSize(mtuSize) == if mtuSize < 576 then Failure(RuntimeError) else Success(mtuSize - 140)
  {
    MaxBufferSizeForMtu(mtuSize);
  }
}
