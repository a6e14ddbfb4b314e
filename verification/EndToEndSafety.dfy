/** Safety of whole server runs under a network that loses, duplicates, reorders and
    interleaves the frames of honest clients. */
module EndToEndSafety {
  import opened Common
  import opened EnterpriseDiode
  import opened SislFilename
  import opened Streams
  import opened Reordering
  import opened Ordering
  import opened Sessions
  import opened Transfers
  import opened Chunking

  /** Numbered frames for each of a number of session ids. */
  type TransferMap = map<uint32, seq<Packet>>

  ghost predicate ValidTransfers(ts: TransferMap) {
    forall id | id in ts :: Numbered(ts[id]) && forall p | p in ts[id] :: SessionOf(p) == id
  }

  /** An arrival the network can make of the transfers: any frame of any of them, any time. */
  ghost predicate Deliverable(ts: TransferMap, a: Arrival) {
    var r := ParsePacket(a.datagram);
    r.Success? && SessionOf(r.value) in ts && Genuine(ts[SessionOf(r.value)], r.value)
  }

  /** A stream that holds the output of the first data frames, up to some frame. */
  ghost predicate HoldsPrefix(c: Config, fs: seq<Packet>, calls: seq<Call>)
    requires 0 < |fs| < TWO_32
  {
    && OnlyWrites(calls)
    && exists k | 0 <= k < |fs| :: EmittedIs(c.diodeType, fs[..k], Content(calls))
  }

  ghost predicate EmittedIs(d: DiodeType, fs: seq<Packet>, output: BytesBuffer)
    requires |fs| < TWO_32
  {
    Emitted(d, fs).Success? && Emitted(d, fs).value.1 == output
  }

  /** A closed stream was either given everything, then its name, then renamed, or it was given
      a part and deleted. */
  ghost predicate ClosedWell(c: Config, fs: seq<Packet>, calls: seq<Call>)
    requires 0 < |fs| < TWO_32
  {
    && |calls| > 0
    && var front := calls[..|calls| - 1];
       match calls[|calls| - 1]
       case RenameFile => WholeAndNamed(c, fs, front)
       case DeleteFile => HoldsPrefix(c, fs, front)
       case _ => false
  }

  ghost predicate SafeManager(c: Config, ts: TransferMap, m: ManagerState)
    requires ValidTransfers(ts)
  {
    && (forall id | id in m.streams :: id in ts && Safe(c, ts[id], m.streams[id].queue))
    && (forall r | r in m.closed :: r.sessionId in ts && ClosedWell(c, ts[r.sessionId], r.calls))
  }

  lemma SafeHoldsPrefix(c: Config, fs: seq<Packet>, s: QueueState)
    requires 0 < |fs| < TWO_32 && Safe(c, fs, s)
    ensures HoldsPrefix(c, fs, s.calls)
  {
    assert EmittedIs(c.diodeType, fs[..s.nextFrameCount - 1], Content(s.calls));
  }

  lemma OpenedSafely(c: Config, ts: TransferMap, m: ManagerState, id: uint32, now: int)
    requires ValidTransfers(ts) && SafeManager(c, ts, m) && id in ts
    ensures SafeManager(c, ts, Opened(m, id, now))
  {
    InitiallySafe(c, ts[id]);
  }

  /** Closing the session with a last call that fits leaves the others alone. */
  lemma ClosedSafely(c: Config, ts: TransferMap, m: ManagerState, id: uint32, call: Call)
    requires ValidTransfers(ts) && id in m.streams && id in ts
    requires forall other | other in m.streams && other != id ::
      other in ts && Safe(c, ts[other], m.streams[other].queue)
    requires forall r | r in m.closed :: r.sessionId in ts && ClosedWell(c, ts[r.sessionId], r.calls)
    requires ClosedWell(c, ts[id], m.streams[id].queue.calls + [call])
    ensures SafeManager(c, ts, Closed(m, id, call))
  {
  }

  lemma ReplacedSafely(c: Config, ts: TransferMap, m: ManagerState, id: uint32, w: WriterState)
    requires ValidTransfers(ts) && SafeManager(c, ts, m) && id in m.streams && Safe(c, ts[id], w.queue)
    ensures SafeManager(c, ts, m.(streams := m.streams[id := w]))
  {
  }

  lemma RenamedWell(c: Config, fs: seq<Packet>, calls: seq<Call>)
    requires 0 < |fs| < TWO_32 && WholeAndNamed(c, fs, calls)
    ensures ClosedWell(c, fs, calls + [RenameFile])
  {
    assert (calls + [RenameFile])[..|calls|] == calls;
  }

  lemma SettledSafely(c: Config, ts: TransferMap, m: ManagerState, p: Packet, w: WriterState, o: Outcome)
    requires ValidTransfers(ts) && SafeManager(c, ts, m)
    requires SessionOf(p) in m.streams && Genuine(ts[SessionOf(p)], p)
    requires Writes(c, m.streams[SessionOf(p)].queue, p, w.queue, o)
    ensures SafeManager(c, ts, Settled(m, SessionOf(p), w, o))
  {
    var id := SessionOf(p);
    var fs, written := ts[id], m.(streams := m.streams[id := w]);
    WriteKeepsSafe(c, fs, m.streams[id].queue, p, w.queue, o);
    if o == Complete {
      RenamedWell(c, fs, w.queue.calls);
      ClosedSafely(c, ts, written, id, RenameFile);
    } else {
      ReplacedSafely(c, ts, m, id, w);
    }
  }

  lemma ExpiredSafely(c: Config, ts: TransferMap, m: ManagerState, id: uint32)
    requires ValidTransfers(ts) && SafeManager(c, ts, m) && id in m.streams
    ensures SafeManager(c, ts, Closed(m, id, DeleteFile))
  {
    var calls := m.streams[id].queue.calls;
    SafeHoldsPrefix(c, ts[id], m.streams[id].queue);
    assert (calls + [DeleteFile])[..|calls|] == calls;
    ClosedSafely(c, ts, m, id, DeleteFile);
  }

  lemma StepSafe(c: ServerConfig, ts: TransferMap, m: ManagerState, a: Arrival, next: ManagerState)
    requires ValidTransfers(ts) && SafeManager(c.queue, ts, m) && Deliverable(ts, a)
    requires Steps(c, m, a, next, true)
    ensures SafeManager(c.queue, ts, next)
  {
    var p := ParsePacket(a.datagram).value;
    var id := SessionOf(p);
    var thrown :| WritesToStream(c, m, p, a.now, next, thrown);
    var m1 := Opened(m, id, a.now);
    OpenedSafely(c.queue, ts, m, id, a.now);
    if Expired(c, m1.streams[id], a.now) {
      ExpiredSafely(c.queue, ts, m1, id);
    } else {
      var w, o :| WriterWrites(c.queue, m1.streams[id], p, a.now, w, o)
        && next == Settled(m1, id, w, o) && thrown == Thrown(o);
      SettledSafely(c.queue, ts, m1, p, w, o);
    }
  }

  /** In every state of every run the network can make of the transfers, with either diode, the
      streams of live sessions hold the output of a prefix of their transfer, and every closed
      stream was completed and renamed, or cut short and deleted. */
  lemma {:induction false} RunSafe(
    c: ServerConfig, ts: TransferMap, states: seq<ManagerState>, arrivals: seq<Arrival>, i: nat)
    requires ValidTransfers(ts) && Run(c, states, arrivals) && i < |states|
    requires forall a | a in arrivals :: Deliverable(ts, a)
    ensures SafeManager(c.queue, ts, states[i])
  {
    if i > 0 {
      RunSafe(c, ts, states, arrivals, i - 1);
      StepOfRun(c, states, arrivals, i - 1);
      StepSafe(c, ts, states[i - 1], arrivals[i - 1], states[i]);
    }
  }

  /** Clients, each with its own session id. */
  ghost predicate ValidSenders(senders: map<uint32, Sender>) {
    forall id | id in senders :: ValidSender(senders[id]) && senders[id].session == id
  }

  /** One of the datagrams one of the clients sends. */
  ghost predicate SentBySome(senders: map<uint32, Sender>, d: Datagram)
    requires ValidSenders(senders)
  {
    exists id | id in senders :: d in Datagrams(senders[id])
  }

  ghost function TransfersOf(senders: map<uint32, Sender>): TransferMap
    requires ValidSenders(senders)
  {
    map id | id in senders :: Frames(senders[id])
  }

  /** The name a client's file gets: its own up to 50 characters. */
  function ReceivedName(s: Sender): string {
    if |s.filename| <= 50 then s.filename else "rejected."
  }

  /** All of the client's file, its name, and the renaming, and nothing else. */
  ghost predicate ReceivedWhole(s: Sender, calls: seq<Call>) {
    && |calls| >= 2
    && OnlyWrites(calls[..|calls| - 2])
    && Content(calls[..|calls| - 2]) == s.file
    && calls[|calls| - 2..] == [SetStoredFilename(ReceivedName(s)), RenameFile]
  }

  /** A prefix of the client's file, and the deletion. */
  ghost predicate CutShort(s: Sender, calls: seq<Call>) {
    && |calls| >= 1
    && OnlyWrites(calls[..|calls| - 1])
    && Content(calls[..|calls| - 1]) <= s.file
    && calls[|calls| - 1] == DeleteFile
  }

  lemma SendersTransfer(senders: map<uint32, Sender>)
    requires ValidSenders(senders)
    ensures ValidTransfers(TransfersOf(senders))
  {
    forall id | id in senders
      ensures Numbered(Frames(senders[id])) && forall p | p in Frames(senders[id]) :: SessionOf(p) == id
    {
      ClientFrames(senders[id]);
    }
  }

  lemma SentIsDeliverable(senders: map<uint32, Sender>, a: Arrival)
    requires ValidSenders(senders) && SentBySome(senders, a.datagram)
    ensures Deliverable(TransfersOf(senders), a)
  {
    var id :| id in senders && a.datagram in Datagrams(senders[id]);
    DatagramIsFrame(senders[id], a.datagram);
  }

  lemma PayloadsPrefix(fs: seq<Packet>, k: nat)
    requires k <= |fs|
    ensures Payloads(fs[..k]) <= Payloads(fs)
  {
    assert fs == fs[..k] + fs[k..];
    PayloadsConcat(fs[..k], fs[k..]);
  }

  lemma FrontOfFile(s: Sender, k: nat)
    requires ValidSender(s) && k < |Frames(s)|
    ensures Payloads(Frames(s)[..k]) <= s.file
  {
    ClientPayloads(s);
    PayloadsPrefix(Frames(s)[..|Frames(s)| - 1], k);
    TakeTwice(Frames(s), |Frames(s)| - 1, k);
  }

  lemma TakeTwice(fs: seq<Packet>, n: nat, k: nat)
    requires k <= n <= |fs|
    ensures fs[..n][..k] == fs[..k]
  {
  }

  lemma PrefixOfFile(c: Config, s: Sender, calls: seq<Call>)
    requires ValidSender(s) && 0 < |Frames(s)| < TWO_32 && HoldsPrefix(c, Frames(s), calls)
    ensures Content(calls) <= s.file
  {
    var k :| 0 <= k < |Frames(s)| && EmittedIs(c.diodeType, Frames(s)[..k], Content(calls));
    ClientEmits(c.diodeType, s, k);
    FrontOfFile(s, k);
  }

  lemma NamedThenRenamed(calls: seq<Call>, c: Call)
    requires |calls| > 0
    ensures (calls + [c])[..|calls| - 1] == calls[..|calls| - 1]
    ensures (calls + [c])[|calls| - 1..] == [calls[|calls| - 1], c]
  {
  }

  lemma StoredForClient(c: Config, s: Sender)
    requires ServerExtraction(c.extractFilename) && ValidSender(s)
    ensures StoredName(c, EofPayload(s.filename)) == Success(ReceivedName(s))
  {
    FilenameSurvivesIff(s.filename);
  }

  lemma WholeFile(c: Config, s: Sender, front: seq<Call>)
    requires ServerExtraction(c.extractFilename) && ValidSender(s)
    requires 0 < |Frames(s)| < TWO_32 && WholeAndNamed(c, Frames(s), front)
    ensures ReceivedWhole(s, front + [RenameFile])
  {
    ClientPayloads(s);
    ClientEof(s);
    ClientEmits(c.diodeType, s, |Frames(s)| - 1);
    StoredForClient(c, s);
    NamedThenRenamed(front, RenameFile);
  }

  lemma ClosedFile(c: Config, s: Sender, calls: seq<Call>)
    requires ServerExtraction(c.extractFilename) && ValidSender(s)
    requires 0 < |Frames(s)| < TWO_32 && ClosedWell(c, Frames(s), calls)
    ensures ReceivedWhole(s, calls) || CutShort(s, calls)
  {
    var front, last := calls[..|calls| - 1], calls[|calls| - 1];
    assert front + [last] == calls;
    if last == RenameFile {
      WholeFile(c, s, front);
    } else {
      PrefixOfFile(c, s, front);
    }
  }

  lemma HonestRunSafe(
    c: ServerConfig, senders: map<uint32, Sender>, states: seq<ManagerState>, arrivals: seq<Arrival>, i: nat)
    requires ValidSenders(senders) && Run(c, states, arrivals) && i < |states|
    requires forall a | a in arrivals :: SentBySome(senders, a.datagram)
    ensures ValidTransfers(TransfersOf(senders)) && SafeManager(c.queue, TransfersOf(senders), states[i])
    ensures forall a | a in arrivals :: Deliverable(TransfersOf(senders), a)
  {
    SendersTransfer(senders);
    forall a | a in arrivals
      ensures Deliverable(TransfersOf(senders), a)
    {
      SentIsDeliverable(senders, a);
    }
    RunSafe(c, TransfersOf(senders), states, arrivals, i);
  }

  /** End-to-end safety: whatever the network loses, repeats, reorders and interleaves, whatever the
      clock, the queue length and the payload sizes, and on either diode, every live stream always
      holds a prefix of its sender's file, every renamed stream holds exactly the whole file under
      the name it is to get, and every other closed stream held a prefix and was deleted. */
  lemma FileSafety(
    c: ServerConfig, senders: map<uint32, Sender>, states: seq<ManagerState>, arrivals: seq<Arrival>, i: nat)
    requires ServerExtraction(c.queue.extractFilename)
    requires ValidSenders(senders) && Run(c, states, arrivals) && i < |states|
    requires forall a | a in arrivals :: SentBySome(senders, a.datagram)
    ensures forall id | id in states[i].streams ::
      var calls := states[i].streams[id].queue.calls;
      id in senders && OnlyWrites(calls) && Content(calls) <= senders[id].file
    ensures forall r | r in states[i].closed ::
      r.sessionId in senders
      && (ReceivedWhole(senders[r.sessionId], r.calls) || CutShort(senders[r.sessionId], r.calls))
  {
    var ts, m := TransfersOf(senders), states[i];
    HonestRunSafe(c, senders, states, arrivals, i);
    forall id | id in m.streams
      ensures id in senders && Content(m.streams[id].queue.calls) <= senders[id].file
    {
      SafeHoldsPrefix(c.queue, ts[id], m.streams[id].queue);
      PrefixOfFile(c.queue, senders[id], m.streams[id].queue.calls);
    }
    forall r | r in m.closed
      ensures r.sessionId in senders
      ensures ReceivedWhole(senders[r.sessionId], r.calls) || CutShort(senders[r.sessionId], r.calls)
    {
      ClientFrames(senders[r.sessionId]);
      ClosedFile(c.queue, senders[r.sessionId], r.calls);
    }
  }
}
