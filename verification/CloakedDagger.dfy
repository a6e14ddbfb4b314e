/** The 48-byte encapsulation header the diode hardware puts on a wrapped frame
    (src/rewrapper/CloakedDagger.cpp). */
module CloakedDagger {
  import opened Common

  const HEADER_SIZE: nat := 48
  const IDENTIFIER_BYTE: byte := 0xd1

  type CloakedDaggerHeader = h: BytesBuffer | |h| == 48 witness Zeros(48)
  type Mask = m: BytesBuffer | |m| == 8 witness Zeros(8)

  /** memcpy into an unsigned integer on a little-endian machine. */
  function Extract16(v: BytesBuffer, pos: nat): bv16
    requires pos + 2 <= |v|
  {
    (v[pos] as bv16) | ((v[pos + 1] as bv16) << 8)
  }

  function Extract32(v: BytesBuffer, pos: nat): bv32
    requires pos + 4 <= |v|
  {
    (v[pos] as bv32) | ((v[pos + 1] as bv32) << 8) | ((v[pos + 2] as bv32) << 16) | ((v[pos + 3] as bv32) << 24)
  }

  /** boost::endian::native_to_big on a little-endian machine: the bytes are reversed. */
  function NativeToBig16(v: bv16): bv16 {
    (v << 8) | (v >> 8)
  }

  function NativeToBig32(v: bv32): bv32 {
    (v << 24) | ((v << 8) & 0xff_0000) | ((v >> 8) & 0xff00) | (v >> 24)
  }

  /** The seven comparisons of throwIfHeaderInvalid. */
  predicate ValidHeader(h: CloakedDaggerHeader) {
    && NativeToBig32(Extract32(h, 0)) == 0xd1df_5fff
    && NativeToBig32(Extract32(h, 44)) == 0xff5f_dfd1
    && NativeToBig16(Extract16(h, 4)) == 1
    && NativeToBig16(Extract16(h, 6)) == 0
    && NativeToBig32(Extract32(h, 12)) == 1
    && NativeToBig16(Extract16(h, 16)) == 3
    && NativeToBig16(Extract16(h, 18)) == 8
  }

  function Key(h: CloakedDaggerHeader): Mask {
    h[20..28]
  }

  /** Construction of a CloakedDagger: the key, or the runtime_error of an invalid header. */
  function MaskFromHeader(h: CloakedDaggerHeader): Result<Mask> {
    if ValidHeader(h) then Success(Key(h)) else Failure(RuntimeError)
  }

  lemma Words(v: BytesBuffer, pos: nat)
    requires pos + 4 <= |v|
    ensures NativeToBig32(Extract32(v, pos)) == 0xd1df_5fff <==> v[pos..pos + 4] == [0xd1, 0xdf, 0x5f, 0xff]
    ensures NativeToBig32(Extract32(v, pos)) == 0xff5f_dfd1 <==> v[pos..pos + 4] == [0xff, 0x5f, 0xdf, 0xd1]
    ensures NativeToBig32(Extract32(v, pos)) == 1 <==> v[pos..pos + 4] == [0, 0, 0, 1]
  {
    var w, x, y, z := v[pos], v[pos + 1], v[pos + 2], v[pos + 3];
    assert v[pos..pos + 4] == [w, x, y, z];
  }

  lemma Halves(v: BytesBuffer, pos: nat)
    requires pos + 4 <= |v|
    ensures NativeToBig16(Extract16(v, pos)) == 1 && NativeToBig16(Extract16(v, pos + 2)) == 0
        <==> v[pos..pos + 4] == [0, 1, 0, 0]
    ensures NativeToBig16(Extract16(v, pos)) == 3 && NativeToBig16(Extract16(v, pos + 2)) == 8
        <==> v[pos..pos + 4] == [0, 3, 0, 8]
  {
    var w, x, y, z := v[pos], v[pos + 1], v[pos + 2], v[pos + 3];
    assert v[pos..pos + 4] == [w, x, y, z];
  }

  /** The bytes that a header must hold on the wire, the fields being big-endian. Total length, key,
      checksums and lengths are free. */
  predicate HasFixedBytes(h: CloakedDaggerHeader) {
    && h[0..4] == [0xd1, 0xdf, 0x5f, 0xff]
    && h[4..8] == [0x00, 0x01, 0x00, 0x00]
    && h[12..16] == [0x00, 0x00, 0x00, 0x01]
    && h[16..20] == [0x00, 0x03, 0x00, 0x08]
    && h[44..48] == [0xff, 0x5f, 0xdf, 0xd1]
  }

  /** Swapping and comparing accepts exactly these bytes. */
  lemma ValidHeaderBytes(h: CloakedDaggerHeader)
    ensures ValidHeader(h) <==> HasFixedBytes(h)
    ensures ValidHeader(h) ==> h[0] == IDENTIFIER_BYTE
  {
    Words(h, 0);
    Halves(h, 4);
    Words(h, 12);
    Halves(h, 16);
    Words(h, 44);
    assert h[0] == h[0..4][0];
  }

  /** A header yields a key, its bytes 20 to 27, if and only if it holds these bytes; every other one
      is refused with a runtime_error. */
  lemma MaskFromHeaderIff(h: CloakedDaggerHeader)
    ensures MaskFromHeader(h) == if HasFixedBytes(h) then Success(h[20..28]) else Failure(RuntimeError)
  {
    ValidHeaderBytes(h);
  }
}
