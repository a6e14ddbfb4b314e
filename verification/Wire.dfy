/** Datagrams on the wire (src/server/UdpServer.cpp): the sizes both sides compute from the MTU
    agree, so the server reads every client datagram as it was sent. */
module Wire {
  import opened Common
  import opened EnterpriseDiode
  import opened SislFilename
  import opened Clients
  import opened Chunking

  /** The bytes of the two buffers, one after the other. */
  function OnWire(d: Datagram): BytesBuffer {
    d.header + d.payload
  }

  /** Receiving into a header buffer and a frame buffer of udpFrameSize bytes in all: what does not
      fit is cut off, and a datagram without payload is not passed on. */
  function Received(wire: BytesBuffer, udpFrameSize: nat): Option<Datagram>
    requires HEADER_SIZE_IN_BYTES <= udpFrameSize
  {
    var udpPacketLength := Min(|wire|, udpFrameSize);
    if udpPacketLength - HEADER_SIZE_IN_BYTES > 0 then
      Some(Datagram(wire[..HEADER_SIZE_IN_BYTES], wire[HEADER_SIZE_IN_BYTES..udpPacketLength]))
    else None
  }

  /** Exactly the datagrams longer than their 112 bytes of header are passed on, with the header and
      as much of the payload as there is room for. */
  lemma ReceivedIff(wire: BytesBuffer, udpFrameSize: nat)
    requires 112 <= udpFrameSize
    ensures Received(wire, udpFrameSize)
         == if |wire| > 112 && udpFrameSize > 112
            then Some(Datagram(wire[..112], wire[112..Min(|wire|, udpFrameSize)])) else None
  {
  }

  /** A datagram with a whole header and a payload of 1 to the given number of bytes. */
  predicate Fits(d: Datagram, payloadSize: nat) {
    |d.header| == HEADER_SIZE_IN_BYTES && 0 < |d.payload| <= payloadSize
  }

  lemma {:induction false} DatagramsFit(
    session: uint32, payloadSize: nat, filename: string, rest: BytesBuffer, n: uint32, d: Datagram)
    requires ClientAccepts(filename) && 80 <= payloadSize
    requires d in DatagramsFrom(session, payloadSize, filename, rest, n)
    ensures Fits(d, payloadSize)
    decreases |rest|
  {
    if rest != [] {
      var k := Taken(rest, payloadSize);
      if d != DataDatagram(session, n, false, rest[..k]) {
        DatagramsFit(session, payloadSize, filename, rest[k..], Increment32(n), d);
      }
    }
  }

  lemma FittingIsReceived(d: Datagram, payloadSize: nat)
    requires Fits(d, payloadSize)
    ensures Received(OnWire(d), HEADER_SIZE_IN_BYTES + payloadSize) == Some(d)
  {
    var wire := OnWire(d);
    assert wire[..HEADER_SIZE_IN_BYTES] == d.header && wire[HEADER_SIZE_IN_BYTES..|wire|] == d.payload;
  }

  /** With both sides on the same MTU, from 576 on, every datagram a client sends reaches the
      server's packet handler unchanged. */
  lemma ClientDatagramsReceived(s: Sender, mtuSize: uint16, d: Datagram)
    requires ValidSender(s) && 576 <= mtuSize && CalculatePayloadSize(mtuSize) == Success(s.payloadSize)
    requires d in Datagrams(s)
    ensures var size := CalculateMaxBufferSize(mtuSize);
            size.Success? && HEADER_SIZE_IN_BYTES <= size.value && Received(OnWire(d), size.value) == Some(d)
  {
    MaxBufferSizeForMtu(mtuSize);
    PayloadSizeForMtu(mtuSize);
    DatagramsFit(s.session, s.payloadSize, s.filename, s.file, 1, d);
    FittingIsReceived(d, s.payloadSize);
  }
}
