/** The simple wrap and unwrap pair that says what an encapsulated stream means
    (src/rewrapper/UnwrapperTestHelpers.cpp). */
module Unwrapping {
  import opened Common
  import opened CloakedDagger
  import opened Rewrapping

  datatype TestPacket = TestPacket(header: CloakedDaggerHeader, message: BytesBuffer)

  const HEADER_FRONT: BytesBuffer :=
    [0xd1, 0xdf, 0x5f, 0xff, 0x00, 0x01, 0x00, 0x00, 0x00, 0x00, 0x00, 0x30,
     0x00, 0x00, 0x00, 0x01, 0x00, 0x03, 0x00, 0x08]

  const HEADER_BACK: BytesBuffer := Zeros(16) + [0xff, 0x5f, 0xdf, 0xd1]

  function HeaderWithKey(mask: Mask): CloakedDaggerHeader {
    HEADER_FRONT + mask + HEADER_BACK
  }

  /** What unwrapping a stream with a leading header means. */
  function Unwrapped(stream: BytesBuffer): Result<BytesBuffer>
    requires HEADER_SIZE <= |stream|
  {
    match MaskFromHeader(stream[..48])
    case Failure(e) => Failure(e)
    case Success(key) => Success(Xor(stream[48..], key, 0))
  }

  /** createTestWrappedString: a valid header holding the mask, and the payload XORed with it. */
  method CreateTestWrappedString(payload: BytesBuffer, mask: Mask) returns (p: TestPacket)
    ensures p == TestPacket(HeaderWithKey(mask), Xor(payload, mask, 0))
  {
    var messageStream := [];
    var count := 0;
    while count < |payload|
      invariant count <= |payload|
      invariant messageStream == Xor(payload, mask, 0)[..count]
    {
      messageStream := messageStream + [payload[count] ^ mask[count % 8]];
      count := count + 1;
    }
    assert messageStream == Xor(payload, mask, 0);
    p := TestPacket(HeaderWithKey(mask), messageStream);
  }

  /** cloakDaggerUnwrap: reads the header, then the rest byte by byte. */
  method CloakDaggerUnwrap(inputStream: BytesBuffer) returns (r: Result<BytesBuffer>)
    requires HEADER_SIZE <= |inputStream|
    ensures r == Unwrapped(inputStream)
  {
    var wrappedHeader := MaskFromHeader(inputStream[..48]);
    if wrappedHeader.Failure? {
      return Failure(wrappedHeader.error);
    }
    var outputStream, count: uint64 := [], 0;
    for i := 48 to |inputStream|
      invariant count == (i - 48) % TWO_64
      invariant outputStream == Xor(inputStream[48..], wrappedHeader.value, 0)[..i - 48]
    {
      SizeWrapHarmless(i - 48, 0);
      outputStream := outputStream + [inputStream[i] ^ wrappedHeader.value[count % 8]];
      WrappedSum(i - 48, 1);
      count := (count + 1) % TWO_64;
    }
    assert outputStream == Xor(inputStream[48..], wrappedHeader.value, 0);
    r := Success(outputStream);
  }

  lemma HeaderWithKeyValid(mask: Mask)
    ensures ValidHeader(HeaderWithKey(mask)) && Key(HeaderWithKey(mask)) == mask
  {
    var h := HeaderWithKey(mask);
    ValidHeaderBytes(h);
    assert h[0..4] == [0xd1, 0xdf, 0x5f, 0xff];
    assert h[4..8] == [0x00, 0x01, 0x00, 0x00];
    assert h[12..16] == [0x00, 0x00, 0x00, 0x01];
    assert h[16..20] == [0x00, 0x03, 0x00, 0x08];
    assert h[44..48] == [0xff, 0x5f, 0xdf, 0xd1];
    assert h[20..28] == mask;
  }

  /** Unwrapping a stream of a valid header and a body encrypted under its key from offset 0
      gives the plaintext. */
  lemma UnwrapEncrypted(header: CloakedDaggerHeader, plaintext: BytesBuffer)
    requires ValidHeader(header)
    ensures Unwrapped(header + Xor(plaintext, Key(header), 0)) == Success(plaintext)
  {
    var stream := header + Xor(plaintext, Key(header), 0);
    assert stream[..48] == header && stream[48..] == Xor(plaintext, Key(header), 0);
    XorInvolutive(plaintext, Key(header), 0);
  }

  /** A stream is unwrapped if and only if it starts with a valid header. */
  lemma UnwrappedIff(stream: BytesBuffer)
    requires 48 <= |stream|
    ensures Unwrapped(stream)
         == if HasFixedBytes(stream[..48]) then Success(Xor(stream[48..], stream[20..28], 0)) else Failure(RuntimeError)
  {
    MaskFromHeaderIff(stream[..48]);
    assert stream[..48][20..28] == stream[20..28];
  }

  /** The pair round-trips for every payload and every key. */
  lemma WrapUnwrap(payload: BytesBuffer, mask: Mask)
    ensures Unwrapped(HeaderWithKey(mask) + Xor(payload, mask, 0)) == Success(payload)
  {
    HeaderWithKeyValid(mask);
    UnwrapEncrypted(HeaderWithKey(mask), payload);
  }
}
