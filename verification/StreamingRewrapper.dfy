/** Re-keying of a stream of separately wrapped frames under the key of its first frame
    (src/rewrapper/StreamingRewrapper.cpp). */
module Rewrapping {
  import opened Common
  import opened CloakedDagger

  /** The two fields of the class: the key of the first frame and a size_t offset. */
  datatype RewrapState = RewrapState(mask: Mask, maskIndex: uint64)

  const INITIAL: RewrapState := RewrapState(Zeros(8), 0)

  /** Plain XOR of data with a repeating key, starting at an offset into the key stream. */
  function Xor(data: BytesBuffer, key: Mask, offset: nat): (r: BytesBuffer)
    ensures |r| == |data|
    ensures forall k | 0 <= k < |data| :: r[k] == data[k] ^ key[(offset + k) % 8]
  {
    seq(|data|, k requires 0 <= k < |data| => data[k] ^ key[(offset + k) % 8])
  }

  /** size_t arithmetic: the sum wraps before the remainder is taken. */
  function KeyIndex(index: uint64, k: nat): (r: nat)
    ensures r < 8
  {
    (index + k) % TWO_64 % 8
  }

  /** The combined mask, position by position: the stored key XOR the frame's own key
      turned so that its first byte meets the running offset. */
  function CombinedMaskBytes(s: RewrapState, inputChunkMask: Mask): Mask {
    seq(8, j requires 0 <= j < 8 => inputChunkMask[(j + 8 - s.maskIndex % 8) % 8] ^ s.mask[j])
  }

  function CombinedMask(s: RewrapState, inputChunkMask: Mask): Result<Mask> {
    if s.mask == Zeros(8) then Failure(RuntimeError) else Success(CombinedMaskBytes(s, inputChunkMask))
  }

  function Rekeyed(s: RewrapState, input: BytesBuffer, newMask: Mask): (RewrapState, BytesBuffer) {
    (s.(maskIndex := (s.maskIndex + |input|) % TWO_64),
     seq(|input|, k requires 0 <= k < |input| => input[k] ^ newMask[KeyIndex(s.maskIndex, k)]))
  }

  function FirstFrameHandled(input: BytesBuffer, inputChunkMask: Mask): RewrapState {
    RewrapState(inputChunkMask, |input| % TWO_64)
  }

  /** One call of rewrap. No path that throws has changed a field by then. */
  function Rewrapped(s: RewrapState, input: BytesBuffer, header: CloakedDaggerHeader, frameCount: uint32)
    : Result<(RewrapState, BytesBuffer)>
  {
    if header[0] != IDENTIFIER_BYTE then
      if input == [] then Failure(OtherError)                           // input.at(0): std::out_of_range
      else if input[0] != 0x7b && input[0] != 0x42 then Failure(RuntimeError)  // neither '{' nor 'B'
      else Success((s, input))
    else
      match MaskFromHeader(header)
      case Failure(e) => Failure(e)
      case Success(inputChunkMask) =>
        if frameCount == 1 then
          Success((FirstFrameHandled(input, inputChunkMask), header + input))
        else
          match CombinedMask(s, inputChunkMask)
          case Failure(e) => Failure(e)
          case Success(newMask) => Success(Rekeyed(s, input, newMask))
  }

  class StreamingRewrapper {
    var mask: Mask
    var maskIndex: uint64

    ghost function State(): RewrapState
      reads this
    {
      RewrapState(mask, maskIndex)
    }

    constructor ()
      ensures State() == INITIAL
    {
      mask, maskIndex := Zeros(8), 0;
    }

    method Rewrap(input: BytesBuffer, header: CloakedDaggerHeader, frameCount: uint32) returns (r: Result<BytesBuffer>)
      modifies this
      ensures match Rewrapped(old(State()), input, header, frameCount)
              case Success(next) => State() == next.0 && r == Success(next.1)
              case Failure(e) => State() == old(State()) && r == Failure(e)
    {
      if header[0] != IDENTIFIER_BYTE {
        if input == [] {
          return Failure(OtherError);
        }
        if input[0] != 0x7b && input[0] != 0x42 {
          return Failure(RuntimeError);
        }
        return Success(input);
      }
      var inputChunkMask := MaskFromHeader(header);
      if inputChunkMask.Failure? {
        return Failure(inputChunkMask.error);
      }
      if frameCount == 1 {
        HandleFirstFrame(input, inputChunkMask.value);
        return Success(header + input);
      }
      var newMask := ConstructXORedMask(inputChunkMask.value);
      if newMask.Failure? {
        return Failure(newMask.error);
      }
      var output := RewrapData(input, newMask.value);
      return Success(output);
    }

    method HandleFirstFrame(input: BytesBuffer, inputChunkMask: Mask)
      modifies this
      ensures State() == FirstFrameHandled(input, inputChunkMask)
    {
      mask, maskIndex := inputChunkMask, |input| % TWO_64;
    }

    /** Fills the new mask at rotating positions. */
    method ConstructXORedMask(inputChunkMask: Mask) returns (r: Result<Mask>)
      ensures r == CombinedMask(State(), inputChunkMask)
    {
      if mask == Zeros(8) {
        return Failure(RuntimeError);
      }
      var newMask := new byte[8];
      ghost var done := {};
      for i := 0 to 8
        invariant done == set k | 0 <= k < i :: KeyIndex(maskIndex, k)
        invariant forall j | j in done :: 0 <= j < 8 && newMask[j] == CombinedMaskBytes(State(), inputChunkMask)[j]
      {
        var out := (i + maskIndex) % TWO_64 % 8;
        newMask[out] := inputChunkMask[i] ^ mask[out];
        RotationInverse(maskIndex, i);
        done := done + {out};
      }
      forall j | 0 <= j < 8
        ensures newMask[j] == CombinedMaskBytes(State(), inputChunkMask)[j]
      {
        RotationOnto(maskIndex, j);
      }
      assert newMask[..] == CombinedMaskBytes(State(), inputChunkMask);
      r := Success(newMask[..]);
    }

    method RewrapData(input: BytesBuffer, newMask: Mask) returns (output: BytesBuffer)
      modifies this
      ensures (State(), output) == Rekeyed(old(State()), input, newMask)
    {
      output := [];
      for i := 0 to |input|
        invariant mask == old(mask)
        invariant maskIndex == (old(maskIndex) + i) % TWO_64
        invariant output == Rekeyed(old(State()), input, newMask).1[..i]
      {
        output := output + [input[i] ^ newMask[maskIndex % 8]];
        WrappedSum(old(maskIndex) + i, 1);
        maskIndex := (maskIndex + 1) % TWO_64;
      }
      assert output == Rekeyed(old(State()), input, newMask).1;
    }
  }

  /** Which frames are refused, in any state: one that claims to be wrapped without a valid header,
      one after the first while the mask is all zeros, and one that is not wrapped and starts neither
      like SISL nor like a bitmap. */
  lemma RefusedIff(s: RewrapState, input: BytesBuffer, header: CloakedDaggerHeader, frameCount: uint32)
    ensures Rewrapped(s, input, header, frameCount) == Failure(RuntimeError)
       <==> if header[0] == 0xd1 then !HasFixedBytes(header) || (frameCount != 1 && s.mask == Zeros(8))
            else input != [] && input[0] != 0x7b && input[0] != 0x42
    ensures Rewrapped(s, input, header, frameCount) == Failure(OtherError) <==> header[0] != 0xd1 && input == []
  {
    MaskFromHeaderIff(header);
  }

  /** Position out holds the byte of the input key that was rotated there. */
  lemma RotationInverse(index: uint64, i: nat)
    requires i < 8
    ensures (KeyIndex(index, i) + 8 - index % 8) % 8 == i
  {
    WrapThenRemainder(index + i);
    TurnedBack(index, i);
  }

  /** The rotation reaches every position. */
  lemma RotationOnto(index: uint64, j: nat)
    requires j < 8
    ensures 0 <= (j + 8 - index % 8) % 8 < 8 && KeyIndex(index, (j + 8 - index % 8) % 8) == j
  {
    WrapThenRemainder(index + (j + 8 - index % 8) % 8);
    TurnedForward(index, j);
  }

  /** 8 divides 2^64, so letting the offset wrap does not disturb the key stream. */
  lemma SizeWrapHarmless(n: nat, k: nat)
    ensures KeyIndex(n % TWO_64, k) == (n + k) % 8
    ensures n % TWO_64 % 8 == n % 8
  {
    WrapThenRemainder(n);
    WrapThenRemainder(n % TWO_64 + k);
    RemainderOfSum(n % TWO_64, n, k);
  }

  lemma RemainderOfSum(a: nat, b: nat, k: nat)
    requires a % 8 == b % 8
    ensures (a + k) % 8 == (b + k) % 8
  {
  }

  lemma MultipleOfEight(r: nat, k: nat)
    ensures (r + 8 * k) % 8 == r % 8
  {
  }

  lemma WrapThenRemainder(m: nat)
    ensures m % TWO_64 % 8 == m % 8
  {
    var q, r := m / TWO_64, m % TWO_64;
    assert m == r + 8 * (0x2000_0000_0000_0000 * q);
    MultipleOfEight(r, 0x2000_0000_0000_0000 * q);
  }

  lemma TurnedForward(n: nat, j: nat)
    requires j < 8
    ensures (n + (j + 8 - n % 8) % 8) % 8 == j
  {
  }

  lemma TurnedBack(n: nat, k: nat)
    ensures ((n + k) % 8 + 8 - n % 8) % 8 == k % 8
  {
  }

  lemma WrappedSum(n: nat, k: nat)
    ensures (n % TWO_64 + k) % TWO_64 == (n + k) % TWO_64
  {
  }

  /** Where a byte of the output meets the two keys. */
  lemma Positions(written: nat, k: nat)
    ensures KeyIndex(written % TWO_64, k) == (written + k) % 8
    ensures (KeyIndex(written % TWO_64, k) + 8 - written % TWO_64 % 8) % 8 == k % 8
  {
    SizeWrapHarmless(written, k);
    TurnedBack(written, k);
  }

  lemma CombinedByte(s: RewrapState, inputChunkMask: Mask, j: nat, k: nat)
    requires j < 8 && (j + 8 - s.maskIndex % 8) % 8 == k
    ensures CombinedMaskBytes(s, inputChunkMask)[j] == inputChunkMask[k] ^ s.mask[j]
  {
  }

  lemma TwiceXored(input: BytesBuffer, a: Mask, b: Mask, offset: nat, k: nat, i: nat, j: nat)
    requires k < |input| && i == k % 8 && j == (offset + k) % 8
    ensures Xor(Xor(input, a, 0), b, offset)[k] == input[k] ^ a[i] ^ b[j]
  {
  }

  lemma RekeyedByte(s: RewrapState, written: nat, input: BytesBuffer, inputChunkMask: Mask, k: nat)
    requires s.maskIndex == written % TWO_64 && k < |input|
    ensures Rekeyed(s, input, CombinedMaskBytes(s, inputChunkMask)).1[k]
         == Xor(Xor(input, inputChunkMask, 0), s.mask, written)[k]
  {
    var i, j := k % 8, KeyIndex(s.maskIndex, k);
    Positions(written, k);
    CombinedByte(s, inputChunkMask, j, i);
    XorAssociates(input[k], inputChunkMask[i], s.mask[j]);
    TwiceXored(input, inputChunkMask, s.mask, written, k, i, j);
  }

  lemma XorAssociates(a: byte, b: byte, c: byte)
    ensures a ^ (b ^ c) == (a ^ b) ^ c
  {
  }

  /** Re-keying is decrypt-then-encrypt without the intermediate plaintext: the chunk is
      decrypted from offset 0 under its own key and encrypted under the stored key at the
      number of body bytes already written, whatever that number is. */
  lemma RekeyRefinesDecryptEncrypt(s: RewrapState, written: nat, input: BytesBuffer, inputChunkMask: Mask)
    requires s.maskIndex == written % TWO_64
    ensures Rekeyed(s, input, CombinedMaskBytes(s, inputChunkMask))
         == (s.(maskIndex := (written + |input|) % TWO_64), Xor(Xor(input, inputChunkMask, 0), s.mask, written))
  {
    var out := Rekeyed(s, input, CombinedMaskBytes(s, inputChunkMask)).1;
    var want := Xor(Xor(input, inputChunkMask, 0), s.mask, written);
    forall k | 0 <= k < |input|
      ensures out[k] == want[k]
    {
      RekeyedByte(s, written, input, inputChunkMask, k);
    }
    WrappedSum(written, |input|);
    assert out == want;
  }

  /** What becomes of a frame that is not refused: one that is not wrapped passes as it is and leaves
      no trace, the first one keeps its header and gives its key, and any later one is decrypted under
      its own key and encrypted under that one, behind all the wrapped bytes before it. */
  lemma RewrapMeans(s: RewrapState, written: nat, input: BytesBuffer, header: CloakedDaggerHeader, frameCount: uint32)
    requires s.maskIndex == written % TWO_64 && Rewrapped(s, input, header, frameCount).Success?
    ensures Rewrapped(s, input, header, frameCount).value
         == if header[0] != 0xd1 then (s, input)
            else if frameCount == 1 then (RewrapState(header[20..28], |input| % TWO_64), header + input)
            else (RewrapState(s.mask, (written + |input|) % TWO_64),
                  Xor(Xor(input, header[20..28], 0), s.mask, written))
  {
    MaskFromHeaderIff(header);
    RekeyRefinesDecryptEncrypt(s, written, input, header[20..28]);
  }

  /** XOR under one key and offset undoes itself. */
  lemma XorInvolutive(data: BytesBuffer, key: Mask, offset: nat)
    ensures Xor(Xor(data, key, offset), key, offset) == data
  {
  }

  /** The key stream runs on across a split of the data. */
  lemma XorConcat(a: BytesBuffer, b: BytesBuffer, key: Mask, offset: nat)
    ensures Xor(a + b, key, offset) == Xor(a, key, offset) + Xor(b, key, offset + |a|)
  {
    var whole, parts := Xor(a + b, key, offset), Xor(a, key, offset) + Xor(b, key, offset + |a|);
    forall k | 0 <= k < |a + b|
      ensures whole[k] == parts[k]
    {
      if |a| <= k {
        assert offset + |a| + (k - |a|) == offset + k;
      }
    }
  }
}
