/** The sender: cuts a file into numbered frames and ends with the file name
    (src/client/Client.cpp, src/client/FreeRunningTimer.cpp). */
module Clients {
  import opened Common
  import opened EnterpriseDiode
  import opened SislFilename

  function DataDatagram(session: uint32, frameCount: uint32, eof: bool, chunk: BytesBuffer): Datagram {
    Datagram(ClientHeader(session, frameCount, eof), chunk)
  }

  function EofDatagram(session: uint32, frameCount: uint32, filename: string): Datagram
    requires MatchesFilter(filename)
  {
    Datagram(ClientHeader(session, frameCount, true), EofPayload(filename))
  }

  /** What one read of the stream takes: at most a payload's worth. */
  function Taken(rest: BytesBuffer, payloadSize: nat): (n: nat)
    ensures n <= |rest|
    ensures rest != [] && payloadSize > 0 ==> n > 0
  {
    Min(payloadSize, |rest|)
  }

  /** All that is still to be sent of the unread bytes, the next frame being numbered n. */
  function DatagramsFrom(
    session: uint32, payloadSize: nat, filename: string, rest: BytesBuffer, n: uint32): seq<Datagram>
    requires 0 < payloadSize && MatchesFilter(filename)
    decreases |rest|
  {
    if rest == [] then [EofDatagram(session, n, filename)]
    else
      var k := Taken(rest, payloadSize);
      [DataDatagram(session, n, false, rest[..k])]
        + DatagramsFrom(session, payloadSize, filename, rest[k..], Increment32(n))
  }

  /** One frame of the unread bytes. A flag that an earlier send has set stays set. */
  function NextDatagram(session: uint32, payloadSize: nat, filename: string, rest: BytesBuffer, n: uint32, eof: bool)
    : Datagram
    requires MatchesFilter(filename)
  {
    if rest == [] then EofDatagram(session, n, filename)
    else DataDatagram(session, n, eof, rest[..Taken(rest, payloadSize)])
  }

  /** What the timer loop sends: everything, or with the flag already set a single frame. */
  function LoopDatagrams(
    session: uint32, payloadSize: nat, filename: string, rest: BytesBuffer, n: uint32, eof: bool): seq<Datagram>
    requires 0 < payloadSize && MatchesFilter(filename)
  {
    if eof then [NextDatagram(session, payloadSize, filename, rest, n, eof)]
    else DatagramsFrom(session, payloadSize, filename, rest, n)
  }

  class InputStream {
    var rest: BytesBuffer

    constructor (contents: BytesBuffer)
      ensures rest == contents
    {
      rest := contents;
    }

    /** read and gcount: fills the front of the buffer. */
    method Read(buffer: array<byte>, size: nat) returns (gcount: nat)
      requires size <= buffer.Length
      modifies this, buffer
      ensures gcount == Taken(old(rest), size)
      ensures buffer[..gcount] == old(rest)[..gcount]
      ensures rest == old(rest)[gcount..]
    {
      gcount := Min(size, |rest|);
      forall i | 0 <= i < gcount {
        buffer[i] := rest[i];
      }
      rest := rest[gcount..];
    }
  }

  class Client {
    const maxPayloadSize: nat
    const filename: string
    const headerBuffer: array<byte>
    const payloadBuffer: array<byte>
    /** What has been handed to the UDP client. */
    var sent: seq<Datagram>
    /** The fields that the header buffer encodes. */
    ghost var session: uint32
    ghost var frameCount: uint32
    ghost var eof: bool

    ghost predicate Valid()
      reads this, headerBuffer
    {
      && 0 < maxPayloadSize == payloadBuffer.Length
      && headerBuffer != payloadBuffer
      && headerBuffer.Length == HEADER_SIZE_IN_BYTES
      && headerBuffer[..] == ClientHeader(session, frameCount, eof)
    }

    /** A new client; the base name of the path is given. */
    constructor (maxPayloadSize: uint16, filename: string)
      requires 0 < maxPayloadSize
      ensures Valid() && fresh(headerBuffer) && fresh(payloadBuffer)
      ensures this.maxPayloadSize == maxPayloadSize && this.filename == filename
      ensures sent == [] && frameCount == 0 && !eof
    {
      this.maxPayloadSize, this.filename := maxPayloadSize, filename;
      var header := new byte[112](_ => 0);
      headerBuffer := header;
      payloadBuffer := new byte[maxPayloadSize];
      sent := [];
      session, frameCount, eof := 0, 0, false;
      new;
      ZeroHeader();
      assert headerBuffer[..] == ClientHeader(0, 0, false);
    }

    /** send: refuses a bad name, otherwise sends the whole stream under the given session id. Neither
        the counter nor the flag is reset, so a second send goes on counting and ends at once. */
    method Send(inputStream: InputStream, sessionId: uint32) returns (r: Result<()>)
      requires Valid()
      modifies this, headerBuffer, payloadBuffer, inputStream
      ensures Valid()
      ensures r == if ClientAccepts(filename) then Success(()) else Failure(RuntimeError)
      ensures r.Failure? ==> sent == old(sent) && inputStream.rest == old(inputStream.rest)
      ensures r.Success? ==>
        sent == old(sent) + LoopDatagrams(
          sessionId, maxPayloadSize, filename, old(inputStream.rest), Increment32(old(frameCount)), old(eof))
    {
      if !ClientAccepts(filename) {
        return Failure(RuntimeError);
      }
      SetSessionID(sessionId);
      RunTimer(inputStream);
      return Success(());
    }

    /** runTimer, with sendFrame as its callback. Every turn reads something or is the last. */
    method RunTimer(inputStream: InputStream)
      requires Valid() && MatchesFilter(filename)
      modifies this, headerBuffer, payloadBuffer, inputStream
      ensures Valid()
      ensures sent == old(sent) + LoopDatagrams(
        old(session), maxPayloadSize, filename, old(inputStream.rest), Increment32(old(frameCount)), old(eof))
    {
      ghost var goal := sent
        + LoopDatagrams(session, maxPayloadSize, filename, inputStream.rest, Increment32(frameCount), eof);
      ghost var rest := inputStream.rest;
      var more := SendFrame(inputStream);
      FrameSent(old(sent), session, maxPayloadSize, filename, rest, frameCount, old(eof));
      while more
        invariant Valid() && session == old(session) && more == !eof
        invariant goal ==
          if more then
            sent + DatagramsFrom(session, maxPayloadSize, filename, inputStream.rest, Increment32(frameCount))
          else sent
        decreases |inputStream.rest|, !eof
      {
        ghost var before := sent;
        rest := inputStream.rest;
        more := SendFrame(inputStream);
        FrameSent(before, session, maxPayloadSize, filename, rest, frameCount, false);
      }
    }

    method SendFrame(inputStream: InputStream) returns (more: bool)
      requires Valid() && MatchesFilter(filename)
      modifies this, headerBuffer, payloadBuffer, inputStream
      ensures Valid() && session == old(session) && frameCount == Increment32(old(frameCount))
      ensures more == !eof && eof == (old(eof) || old(inputStream.rest) == [])
      ensures inputStream.rest == old(inputStream.rest)[Taken(old(inputStream.rest), maxPayloadSize)..]
      ensures sent == old(sent)
        + [NextDatagram(session, maxPayloadSize, filename, old(inputStream.rest), frameCount, old(eof))]
    {
      var datagram := GenerateEDPacket(inputStream);
      sent := sent + [datagram];
      assert headerBuffer[8] == headerBuffer[..][8];
      more := headerBuffer[8] != 1;
    }

    method GenerateEDPacket(inputStream: InputStream) returns (datagram: Datagram)
      requires Valid() && MatchesFilter(filename)
      modifies this, headerBuffer, payloadBuffer, inputStream
      ensures Valid() && session == old(session) && frameCount == Increment32(old(frameCount)) && sent == old(sent)
      ensures eof == (old(eof) || old(inputStream.rest) == [])
      ensures inputStream.rest == old(inputStream.rest)[Taken(old(inputStream.rest), maxPayloadSize)..]
      ensures datagram == NextDatagram(session, maxPayloadSize, filename, old(inputStream.rest), frameCount, old(eof))
    {
      IncrementFrameCount();
      var payloadLength := inputStream.Read(payloadBuffer, maxPayloadSize);
      if payloadLength > 0 {
        datagram := Datagram(headerBuffer[..], payloadBuffer[..payloadLength]);
      } else {
        SetEOF();
        datagram := Datagram(headerBuffer[..], EofPayload(filename));
      }
    }

    /** ++ on the 32-bit integer at offset 4 of the header buffer. */
    method IncrementFrameCount()
      requires Valid()
      modifies `frameCount, headerBuffer
      ensures Valid() && frameCount == Increment32(old(frameCount))
    {
      HeaderRoundTrip(session, frameCount, eof);
      WriteUint32(4, Increment32(ExtractUint32(headerBuffer[..], 4)));
      frameCount := Increment32(frameCount);
      HeaderWithFrameCount(session, old(frameCount), eof, frameCount);
    }

    method SetSessionID(sessionId: uint32)
      requires Valid()
      modifies `session, headerBuffer
      ensures Valid() && session == sessionId
    {
      WriteUint32(0, sessionId);
      session := sessionId;
      HeaderWithSession(old(session), frameCount, eof, session);
    }

    method SetEOF()
      requires Valid()
      modifies `eof, headerBuffer
      ensures Valid() && eof
    {
      headerBuffer[8] := 1;
      eof := true;
      assert headerBuffer[..] == ClientHeader(session, frameCount, old(eof))[8 := 1];
      assert headerBuffer[..] == ClientHeader(session, frameCount, eof);
    }

    /** A store of a 32-bit integer into the header buffer. */
    method WriteUint32(pos: nat, n: uint32)
      requires pos + 4 <= headerBuffer.Length
      modifies headerBuffer
      ensures headerBuffer[..] == Overwritten(old(headerBuffer[..]), pos, EncodeUint32(n))
    {
      var bytes := EncodeUint32(n);
      headerBuffer[pos] := bytes[0];
      headerBuffer[pos + 1] := bytes[1];
      headerBuffer[pos + 2] := bytes[2];
      headerBuffer[pos + 3] := bytes[3];
    }
  }

  /** Sending one frame leaves the rest of the sequence to be sent. */
  lemma FrameSent(
    sent: seq<Datagram>, session: uint32, payloadSize: nat, filename: string, rest: BytesBuffer, n: uint32, eof: bool)
    requires 0 < payloadSize && MatchesFilter(filename)
    ensures var next := sent + [NextDatagram(session, payloadSize, filename, rest, n, eof)];
            sent + LoopDatagrams(session, payloadSize, filename, rest, n, eof)
              == if eof || rest == [] then next
                 else next + DatagramsFrom(
                   session, payloadSize, filename, rest[Taken(rest, payloadSize)..], Increment32(n))
  {
    if !eof && rest != [] {
      var k := Taken(rest, payloadSize);
      var first := [DataDatagram(session, n, false, rest[..k])];
      var later := DatagramsFrom(session, payloadSize, filename, rest[k..], Increment32(n));
      assert sent + (first + later) == sent + first + later;
    }
  }

  lemma ZeroHeader()
    ensures ClientHeader(0, 0, false) == Zeros(112)
  {
    assert EncodeUint32(0) == Zeros(4);
  }

  /** A buffer with some bytes replaced. */
  function Overwritten(b: BytesBuffer, pos: nat, bytes: BytesBuffer): BytesBuffer
    requires pos + |bytes| <= |b|
  {
    b[..pos] + bytes + b[pos + |bytes|..]
  }

  lemma HeaderWithFrameCount(session: uint32, n: uint32, eof: bool, next: uint32)
    ensures Overwritten(ClientHeader(session, n, eof), 4, EncodeUint32(next)) == ClientHeader(session, next, eof)
  {
  }

  lemma HeaderWithSession(session: uint32, n: uint32, eof: bool, next: uint32)
    ensures Overwritten(ClientHeader(session, n, eof), 0, EncodeUint32(next)) == ClientHeader(next, n, eof)
  {
  }
}
