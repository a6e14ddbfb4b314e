/** What the frames of one client are, as the server parses them. */
module Chunking {
  import opened Common
  import opened EnterpriseDiode
  import opened SislFilename
  import opened Reordering
  import opened Transfers
  import opened Clients

  datatype Sender = Sender(session: uint32, payloadSize: uint16, filename: string, file: BytesBuffer)

  /** The number of reads until all has been read. */
  function DataFrameCount(length: nat, payloadSize: nat): nat
    requires 0 < payloadSize
    decreases length
  {
    if length == 0 then 0 else 1 + DataFrameCount(length - Min(payloadSize, length), payloadSize)
  }

  /** A client that accepts its file name and whose frames fit the 32-bit counter. */
  predicate ValidSender(s: Sender) {
    && 0 < s.payloadSize && ClientAccepts(s.filename)
    && DataFrameCount(|s.file|, s.payloadSize) + 1 < TWO_32
  }

  /** The datagrams Client.Send hands to the network. */
  function Datagrams(s: Sender): seq<Datagram>
    requires ValidSender(s)
  {
    DatagramsFrom(s.session, s.payloadSize, s.filename, s.file, 1)
  }

  /** The packets the server makes of them. */
  function Frames(s: Sender): seq<Packet>
    requires ValidSender(s)
  {
    FramesFrom(s, s.file, 1)
  }

  function ClientPacket(s: Sender, n: uint32, eof: bool, payload: BytesBuffer): Packet {
    Packet(HeaderParams(s.session, n, eof, Zeros(48)), payload)
  }

  function FramesFrom(s: Sender, rest: BytesBuffer, n: uint32): seq<Packet>
    requires ValidSender(s)
    decreases |rest|
  {
    if rest == [] then [ClientPacket(s, n, true, EofPayload(s.filename))]
    else
      var k := Taken(rest, s.payloadSize);
      [ClientPacket(s, n, false, rest[..k])] + FramesFrom(s, rest[k..], Increment32(n))
  }

  lemma {:induction false} ParsedFrom(s: Sender, rest: BytesBuffer, n: uint32)
    requires ValidSender(s)
    ensures var ds, fs := DatagramsFrom(s.session, s.payloadSize, s.filename, rest, n), FramesFrom(s, rest, n);
            |ds| == |fs| && forall i | 0 <= i < |ds| :: ParsePacket(ds[i]) == Success(fs[i])
    decreases |rest|
  {
    if rest == [] {
      HeaderRoundTrip(s.session, n, true);
    } else {
      HeaderRoundTrip(s.session, n, false);
      ParsedFrom(s, rest[Taken(rest, s.payloadSize)..], Increment32(n));
    }
  }

  lemma SumByParts(q: nat, p: nat)
    ensures (q + 1) * p == q * p + p
  {
  }

  /** Length divided by payload size, rounded up, as the number without a division. */
  lemma {:induction false} ReadsCover(length: nat, p: nat)
    requires 0 < p
    ensures length <= DataFrameCount(length, p) * p
    ensures 0 < length ==> (DataFrameCount(length, p) - 1) * p < length
    decreases length
  {
    if length > 0 {
      var rest := length - Min(p, length);
      var q := DataFrameCount(rest, p);
      ReadsCover(rest, p);
      SumByParts(q, p);
      if rest > 0 {
        SumByParts(q - 1, p);
      }
    }
  }

  lemma Quotient(x: nat, p: nat, q: nat, r: nat)
    requires 0 < p && r < p && x == q * p + r
    ensures x / p == q
  {
    var d := x / p - q;
    Remainders(x, p);
    assert d * p == r - x % p by {
      Distributes(x / p, q, p);
    }
    if d > 0 {
      Monotone(1, d, p);
    } else if d < 0 {
      Monotone(d, -1, p);
    }
  }

  lemma Remainders(x: nat, p: nat)
    requires 0 < p
    ensures x == x / p * p + x % p
  {
  }

  lemma Distributes(a: int, b: int, p: int)
    ensures (a - b) * p == a * p - b * p
  {
  }

  lemma Monotone(a: int, b: int, p: nat)
    requires a <= b
    ensures a * p <= b * p
  {
  }

  /** There are ceil(length / p) data frames. */
  lemma {:induction false} DataFrameCountIsCeiling(length: nat, p: nat)
    requires 0 < p
    ensures DataFrameCount(length, p) == (length + p - 1) / p
  {
    var q := DataFrameCount(length, p);
    ReadsCover(length, p);
    if length == 0 {
      Quotient(p - 1, p, 0, p - 1);
    } else {
      SumByParts(q - 1, p);
      Quotient(length + p - 1, p, q, length + p - 1 - q * p);
    }
  }

  /** The i-th chunk a reader of the data takes. */
  function Chunk(data: BytesBuffer, p: nat, i: nat): BytesBuffer {
    var k := Taken(data, p);
    if i == 0 then data[..k] else Chunk(data[k..], p, i - 1)
  }

  /** Numbering, the end-of-file mark and the payloads of the frames still to come. */
  predicate Shaped(s: Sender, rest: BytesBuffer, n: nat, fs: seq<Packet>)
    requires MatchesFilter(s.filename)
  {
    && |fs| > 0
    && (forall i | 0 <= i < |fs| :: FrameCount(fs[i]) == n + i && fs[i].headerParams.sessionId == s.session)
    && (forall i | 0 <= i < |fs| :: fs[i].headerParams.eOFFlag <==> i == |fs| - 1)
    && (forall i | 0 <= i < |fs| - 1 :: fs[i].payload == Chunk(rest, s.payloadSize, i))
    && fs[|fs| - 1].payload == EofPayload(s.filename)
    && Payloads(fs[..|fs| - 1]) == rest
  }

  lemma PrependPayload(first: Packet, tail: seq<Packet>)
    requires |tail| > 0
    ensures Payloads(([first] + tail)[..|tail|]) == first.payload + Payloads(tail[..|tail| - 1])
  {
    assert ([first] + tail)[..|tail|] == [first] + tail[..|tail| - 1];
    PayloadsConcat([first], tail[..|tail| - 1]);
    assert [first][..0] == [];
  }

  lemma ShapedCons(s: Sender, rest: BytesBuffer, n: uint32, tail: seq<Packet>)
    requires ValidSender(s) && rest != []
    requires Shaped(s, rest[Taken(rest, s.payloadSize)..], n + 1, tail)
    ensures Shaped(s, rest, n, [ClientPacket(s, n, false, rest[..Taken(rest, s.payloadSize)])] + tail)
  {
    var k := Taken(rest, s.payloadSize);
    var first := ClientPacket(s, n, false, rest[..k]);
    var fs := [first] + tail;
    assert forall i | 0 < i < |fs| :: fs[i] == tail[i - 1];
    PrependPayload(first, tail);
    assert rest[..k] + rest[k..] == rest;
  }

  lemma {:induction false} FramesFromShaped(s: Sender, rest: BytesBuffer, n: uint32)
    requires ValidSender(s) && n + DataFrameCount(|rest|, s.payloadSize) < TWO_32
    ensures |FramesFrom(s, rest, n)| == DataFrameCount(|rest|, s.payloadSize) + 1
    ensures Shaped(s, rest, n, FramesFrom(s, rest, n))
    decreases |rest|
  {
    var p, fs := s.payloadSize, FramesFrom(s, rest, n);
    if rest == [] {
      assert fs[..0] == [];
    } else {
      var k := Taken(rest, p);
      var first, tail := ClientPacket(s, n, false, rest[..k]), FramesFrom(s, rest[k..], n + 1);
      FramesFromShaped(s, rest[k..], n + 1);
      ShapedCons(s, rest, n, tail);
    }
  }

  lemma SliceOfRest(data: BytesBuffer, p: nat, at: nat)
    requires at + p < |data|
    ensures data[p..][at..Min(at + p, |data| - p)] == data[at + p..Min(at + p + p, |data|)]
  {
  }

  lemma ChunkOfRest(data: BytesBuffer, p: nat, i: nat)
    requires 0 < p && 0 < i < DataFrameCount(|data|, p)
    ensures p < |data| && Chunk(data, p, i) == Chunk(data[p..], p, i - 1)
    ensures DataFrameCount(|data|, p) == DataFrameCount(|data[p..]|, p) + 1
  {
  }

  function Times(i: nat, p: nat): nat {
    if i == 0 then 0 else Times(i - 1, p) + p
  }

  lemma {:induction false} TimesIsProduct(i: nat, p: nat)
    ensures Times(i, p) == i * p
  {
    if i > 0 {
      TimesIsProduct(i - 1, p);
      SumByParts(i - 1, p);
    }
  }

  /** Where the chunks lie in the data: at multiples of p, and full except possibly the last. */
  lemma {:induction false} ChunkAt(data: BytesBuffer, p: nat, i: nat)
    requires 0 < p && i < DataFrameCount(|data|, p)
    ensures var at := Times(i, p);
            && at < |data| && Chunk(data, p, i) == data[at..Min(at + p, |data|)]
            && (i + 1 < DataFrameCount(|data|, p) ==> |Chunk(data, p, i)| == p)
    decreases i
  {
    if i > 0 {
      ChunkOfRest(data, p, i);
      ChunkAt(data[p..], p, i - 1);
      SliceOfRest(data, p, Times(i - 1, p));
    }
  }

  /** Chunking is right: the server parses the client's datagrams as ceil(len / p) data frames
      numbered from 1, chunk after chunk, whose payloads concatenate to the file, and one
      end-of-file frame with the next number and the name. */
  lemma ClientFrames(s: Sender)
    requires ValidSender(s)
    ensures var fs := Frames(s);
            && |fs| == DataFrameCount(|s.file|, s.payloadSize) + 1 == |Datagrams(s)|
            && (forall i | 0 <= i < |fs| :: ParsePacket(Datagrams(s)[i]) == Success(fs[i]))
            && Shaped(s, s.file, 1, fs)
            && Numbered(fs)
  {
    ParsedFrom(s, s.file, 1);
    FramesFromShaped(s, s.file, 1);
  }

  lemma ClientNumbered(s: Sender)
    requires ValidSender(s)
    ensures Numbered(Frames(s)) && |Frames(s)| == |Datagrams(s)|
  {
    ClientFrames(s);
  }

  lemma DatagramIsFrame(s: Sender, d: Datagram)
    requires ValidSender(s) && d in Datagrams(s)
    ensures var r := ParsePacket(d);
            r.Success? && r.value.headerParams.sessionId == s.session && Genuine(Frames(s), r.value)
  {
    ClientFrames(s);
    var i :| 0 <= i < |Datagrams(s)| && Datagrams(s)[i] == d;
    assert ParsePacket(Datagrams(s)[i]) == Success(Frames(s)[i]);
  }

  lemma ClientPayloads(s: Sender)
    requires ValidSender(s)
    ensures 0 < |Frames(s)| < TWO_32 && Payloads(Frames(s)[..|Frames(s)| - 1]) == s.file
  {
    FramesFromShaped(s, s.file, 1);
  }

  lemma ClientEof(s: Sender)
    requires ValidSender(s)
    ensures 0 < |Frames(s)| < TWO_32 && Frames(s)[|Frames(s)| - 1].payload == EofPayload(s.filename)
  {
    FramesFromShaped(s, s.file, 1);
  }

  lemma {:induction false} FramesPlain(s: Sender, rest: BytesBuffer, n: uint32)
    requires ValidSender(s)
    ensures forall p | p in FramesFrom(s, rest, n) :: Plain(p)
    decreases |rest|
  {
    if rest != [] {
      FramesPlain(s, rest[Taken(rest, s.payloadSize)..], Increment32(n));
    }
  }

  predicate ReadableChunks(s: Sender)
    requires 0 < s.payloadSize
  {
    forall i | 0 <= i < DataFrameCount(|s.file|, s.payloadSize) :: StartsReadably(Chunk(s.file, s.payloadSize, i))
  }

  /** The diode lets all of the client's chunks pass: it is a basic one, or each starts readably. */
  predicate Passes(d: DiodeType, s: Sender)
    requires 0 < s.payloadSize
  {
    d.Basic? || ReadableChunks(s)
  }

  /** The client's data frames are written as they are, up to one that does not pass. */
  lemma ClientEmits(d: DiodeType, s: Sender, k: nat)
    requires ValidSender(s) && k < |Frames(s)| < TWO_32
    ensures Emitted(d, Frames(s)[..k]).Success? ==> Emitted(d, Frames(s)[..k]).value.1 == Payloads(Frames(s)[..k])
    ensures k == |Frames(s)| - 1 ==> (Emitted(d, Frames(s)[..k]).Success? <==> Passes(d, s))
  {
    FramesPlain(s, s.file, 1);
    PlainEmits(d, Frames(s)[..k]);
    if k == |Frames(s)| - 1 {
      ChunksReadable(s);
    }
  }

  lemma ChunksReadable(s: Sender)
    requires ValidSender(s)
    ensures |Frames(s)| > 0
    ensures AllStartReadably(Frames(s)[..|Frames(s)| - 1]) <==> ReadableChunks(s)
  {
    ClientFrames(s);
    SamePayloads(s, Frames(s)[..|Frames(s)| - 1]);
  }

  lemma SamePayloads(s: Sender, data: seq<Packet>)
    requires 0 < s.payloadSize && |data| == DataFrameCount(|s.file|, s.payloadSize)
    requires forall i | 0 <= i < |data| :: data[i].payload == Chunk(s.file, s.payloadSize, i)
    ensures AllStartReadably(data) <==> ReadableChunks(s)
  {
    if AllStartReadably(data) {
      forall i | 0 <= i < |data|
        ensures StartsReadably(Chunk(s.file, s.payloadSize, i))
      {
        assert data[i] in data;
      }
    }
    if ReadableChunks(s) {
      forall p | p in data
        ensures StartsReadably(p.payload)
      {
        var i :| 0 <= i < |data| && data[i] == p;
        assert StartsReadably(Chunk(s.file, s.payloadSize, i));
      }
    }
  }

  lemma FrameIsChunk(s: Sender, i: nat)
    requires ValidSender(s) && i + 1 < |Frames(s)|
    ensures |Frames(s)| == DataFrameCount(|s.file|, s.payloadSize) + 1
    ensures Frames(s)[i].payload == Chunk(s.file, s.payloadSize, i)
  {
    FramesFromShaped(s, s.file, 1);
  }

  /** Data frame i carries the bytes from i * p on; all are full except possibly the last, and
      none is empty. */
  lemma DataFrameSlice(s: Sender, i: nat, at: nat)
    requires ValidSender(s) && i + 1 < |Frames(s)| && at == i * s.payloadSize
    ensures at < |s.file| && Frames(s)[i].payload == s.file[at..Min(at + s.payloadSize, |s.file|)]
    ensures i + 2 < |Frames(s)| ==> |Frames(s)[i].payload| == s.payloadSize
  {
    FrameIsChunk(s, i);
    TimesIsProduct(i, s.payloadSize);
    ChunkAt(s.file, s.payloadSize, i);
  }
}
