/** When the server delivers a session's file, whatever other sessions do meanwhile. */
module ServerDelivery {
  import opened Common
  import opened EnterpriseDiode
  import opened SislFilename
  import opened Streams
  import opened Reordering
  import opened Ordering
  import opened Sessions
  import opened Transfers
  import opened DeadQueues
  import opened Completion
  import opened Delivery
  import opened ReorderWindow
  import opened Isolation
  import opened Chunking
  import opened EndToEndSafety
  import opened CloakedDagger
  import opened ImportMode

  /** No two consecutive arrivals are further apart than the time-out. */
  predicate InTime(c: ServerConfig, arrivals: seq<Arrival>) {
    forall i | 0 < i < |arrivals| :: arrivals[i].now - arrivals[i - 1].now <= c.timeoutPeriod
  }

  function Live(id: uint32, q: QueueState, now: int): ManagerState {
    ManagerState(map[id := WriterState(q, now)], [], [id])
  }

  function Saved(id: uint32, calls: seq<Call>): ManagerState {
    ManagerState(map[], [Record(id, calls + [RenameFile])], [id])
  }

  function AfterWrite(id: uint32, q: QueueState, now: int, o: Outcome): ManagerState {
    if o.Complete? then Saved(id, q.calls) else Live(id, q, now)
  }

  /** A packet of the one session there is, in time, is a write to its queue. */
  lemma SessionStep(
    c: ServerConfig, m: ManagerState, q: QueueState, last: int, p: Packet, now: int, next: ManagerState,
    thrown: Option<Failure>) returns (t: QueueState, o: Outcome)
    requires WritesToStream(c, m, p, now, next, thrown)
    requires (m == EMPTY && q == INITIAL_QUEUE) || (m == Live(SessionOf(p), q, last) && now - last <= c.timeoutPeriod)
    ensures Writes(c.queue, q, p, t, o) && next == AfterWrite(SessionOf(p), t, now, o)
  {
    var id := SessionOf(p);
    var m1 := Opened(m, id, now);
    assert m1.streams[id].queue == q && m1 == Live(id, q, m1.streams[id].timeLastUpdated);
    var w, outcome :| WriterWrites(c.queue, m1.streams[id], p, now, w, outcome) && next == Settled(m1, id, w, outcome);
    t, o := w.queue, outcome;
    SettledAlone(id, m1, w, o);
  }

  lemma SettledAlone(id: uint32, m: ManagerState, w: WriterState, o: Outcome)
    requires exists q, last :: m == Live(id, q, last)
    ensures Settled(m, id, w, o) == AfterWrite(id, w.queue, w.timeLastUpdated, o)
  {
    assert m.streams[id := w] == map[id := w];
    if o == Complete {
      assert map[id := Called(w, RenameFile)] - {id} == map[];
    }
  }

  lemma QueueRunAfter(
    c: Config, states: seq<QueueState>, packets: seq<Packet>, outcomes: seq<Outcome>, p: Packet, t: QueueState,
    o: Outcome)
    requires QueueRun(c, states, packets, outcomes) && Writes(c, states[|packets|], p, t, o)
    ensures QueueRun(c, states + [t], packets + [p], outcomes + [o])
  {
    var longer, more, all := states + [t], packets + [p], outcomes + [o];
    forall i | 0 <= i < |more|
      ensures WriteAt(c, longer, more, all, i)
    {
      if i < |packets| {
        assert WriteAt(c, states, packets, outcomes, i);
      }
    }
  }

  /** The arrivals bring these packets of the one session. */
  predicate Brings(arrivals: seq<Arrival>, packets: seq<Packet>, id: uint32) {
    && |arrivals| == |packets|
    && forall i | 0 <= i < |arrivals| ::
      ParsePacket(arrivals[i].datagram) == Success(packets[i]) && SessionOf(packets[i]) == id
  }

  /** The manager's state after the i-th arrival of the one session's packets. */
  predicate Follows(
    id: uint32, view: seq<ManagerState>, arrivals: seq<Arrival>, states: seq<QueueState>, outcomes: seq<Outcome>,
    i: nat)
  {
    && |states| == i + 1 == |outcomes| + 1 && i <= |arrivals| < |view|
    && (i > 0 ==> view[i] == AfterWrite(id, states[i], arrivals[i - 1].now, outcomes[i - 1]))
  }

  /** A server that receives nothing but one session's packets, whatever they are, in time, is that
      session's queue, up to the first write that completes it. */
  lemma {:induction false} FollowQueue(
    c: ServerConfig, id: uint32, view: seq<ManagerState>, arrivals: seq<Arrival>, packets: seq<Packet>, i: nat)
    returns (states: seq<QueueState>, outcomes: seq<Outcome>, n: nat)
    requires Run(c, view, arrivals) && Brings(arrivals, packets, id) && InTime(c, arrivals) && i <= |arrivals|
    ensures n <= i && QueueRun(c.queue, states, packets[..n], outcomes) && states[0] == INITIAL_QUEUE
    ensures Follows(id, view, arrivals, states, outcomes, n)
    ensures forall k | 0 <= k < n - 1 :: outcomes[k] != Complete
    ensures n < i ==> n > 0 && outcomes[n - 1] == Complete
  {
    if i == 0 {
      states, outcomes, n := [INITIAL_QUEUE], [], 0;
    } else {
      states, outcomes, n := FollowQueue(c, id, view, arrivals, packets, i - 1);
      if n == i - 1 && (n > 0 ==> outcomes[n - 1] != Complete) {
        var t, o := ArrivalFollowed(c, id, view, arrivals, states, outcomes, i, packets[n]);
        QueueRunAfter(c.queue, states, packets[..n], outcomes, packets[n], t, o);
        assert packets[..i] == packets[..n] + [packets[n]];
        states, outcomes, n := states + [t], outcomes + [o], i;
      }
    }
  }

  lemma ArrivalFollowed(
    c: ServerConfig, id: uint32, view: seq<ManagerState>, arrivals: seq<Arrival>, states: seq<QueueState>,
    outcomes: seq<Outcome>, i: nat, p: Packet) returns (t: QueueState, o: Outcome)
    requires Run(c, view, arrivals) && InTime(c, arrivals) && 0 < i <= |arrivals|
    requires Follows(id, view, arrivals, states, outcomes, i - 1) && states[0] == INITIAL_QUEUE
    requires i > 1 ==> outcomes[i - 2] != Complete
    requires ParsePacket(arrivals[i - 1].datagram) == Success(p) && SessionOf(p) == id
    ensures Writes(c.queue, states[i - 1], p, t, o) && view[i] == AfterWrite(id, t, arrivals[i - 1].now, o)
  {
    StepOfRun(c, view, arrivals, i - 1);
    var now := arrivals[i - 1].now;
    var thrown :| WritesToStream(c, view[i - 1], p, now, view[i], thrown);
    var last := if i > 1 then arrivals[i - 2].now else now;
    t, o := SessionStep(c, view[i - 1], states[i - 1], last, p, now, view[i], thrown);
  }

  /** The order of arrival has not completed the transfer earlier. */
  predicate NotBefore(order: seq<nat>, m: nat, q: nat) {
    forall k | 0 <= k < |order| :: !CompletesAt(order, m, q, k)
  }

  /** Delivery, for any session of any run that has not been stopped before. Its frames arrive in
      time, in any order, some perhaps never and some repeated, among whatever else arrives. The
      arrival that brings the last missing frame completes, names and renames the stream if and only
      if no frame of the transfer throws when its turn comes, no data frame arrived twice and the queue
      was never full; until then, and in every other case, the session's one stream stays live. */
  lemma {:induction false} SessionDelivered(
    c: ServerConfig, fs: seq<Packet>, order: seq<nat>, id: uint32, states: seq<ManagerState>, arrivals: seq<Arrival>)
    returns (q: QueueState, now: int)
    requires Numbered(fs) && FramesOf(order, |fs|) && NotBefore(order, |fs|, c.queue.maxQueueLength)
    requires Run(c, states, arrivals) && order != []
    requires Brings(Only(arrivals, iset{id}), Deliveries(fs, order), id) && InTime(c, Only(arrivals, iset{id}))
    ensures var saved := Acceptable(c.queue, fs) && CompletesAt(order, |fs|, c.queue.maxQueueLength, |order|);
            && Restrict(states[|arrivals|], iset{id}) == (if saved then Saved(id, q.calls) else Live(id, q, now))
            && (saved ==> WholeAndNamed(c.queue, fs, q.calls))
  {
    var own, view, packets := Only(arrivals, iset{id}), View(states, arrivals, iset{id}), Deliveries(fs, order);
    SessionRuns(c, states, arrivals, true, iset{id});
    AnyRun(c, view, own, LastIn(arrivals, iset{id}));
    var queues, outcomes, n := FollowQueue(c, id, view, own, packets, |own|);
    assert n > 0;
    DeliveredIff(c.queue, fs, order, queues, packets[..n], outcomes, n - 1);
    q, now := queues[n], own[n - 1].now;
  }

  /** The same for a transfer whose data frames were wrapped on the way, each under its own key, on an
      import diode: if the first key is not all zeros, the renamed stream unwraps to the plaintext. */
  lemma {:induction false} WrappedDelivered(
    c: ServerConfig, fs: seq<Packet>, order: seq<nat>, id: uint32, states: seq<ManagerState>, arrivals: seq<Arrival>)
    returns (q: QueueState, now: int)
    requires c.queue.diodeType == Import && Numbered(fs) && AllWrapped(fs[..|fs| - 1])
    requires StoredName(c.queue, fs[|fs| - 1].payload).Success?
    requires FramesOf(order, |fs|) && NotBefore(order, |fs|, c.queue.maxQueueLength)
    requires Run(c, states, arrivals) && order != []
    requires Brings(Only(arrivals, iset{id}), Deliveries(fs, order), id) && InTime(c, Only(arrivals, iset{id}))
    ensures var saved := (|fs| <= 2 || Key(HeaderOf(fs[0])) != Zeros(8))
                      && CompletesAt(order, |fs|, c.queue.maxQueueLength, |order|);
            && Restrict(states[|arrivals|], iset{id}) == (if saved then Saved(id, q.calls) else Live(id, q, now))
            && (saved ==> WholePlaintext(fs, q.calls + [RenameFile]))
  {
    WrappedAcceptableIff(c.queue, fs);
    q, now := SessionDelivered(c, fs, order, id, states, arrivals);
    if Acceptable(c.queue, fs) && CompletesAt(order, |fs|, c.queue.maxQueueLength, |order|) {
      NamedWholeUnwraps(c.queue, fs, q.calls);
    }
  }

  /** A frame as another system puts it on the wire: what the server ignores of the header, the
      encapsulation header, and the payload. */
  datatype WireFrame = WireFrame(filler: BytesBuffer, encapsulation: CloakedDaggerHeader, payload: BytesBuffer)

  predicate ValidWire(ws: seq<WireFrame>) {
    0 < |ws| < TWO_32 && forall w | w in ws :: |w.filler| == 55
  }

  /** The datagram of the k-th frame. */
  function WireDatagram(sessionId: uint32, ws: seq<WireFrame>, k: nat): Datagram
    requires ValidWire(ws) && 1 <= k <= |ws|
  {
    var (w, flag) := (ws[k - 1], if k == |ws| then 1 else 0);
    Datagram(EncodeUint32(sessionId) + EncodeUint32(k) + [flag] + w.filler + w.encapsulation, w.payload)
  }

  /** The packets the server makes of them. */
  function WirePackets(sessionId: uint32, ws: seq<WireFrame>): (fs: seq<Packet>)
    requires ValidWire(ws)
    ensures |fs| == |ws| && Numbered(fs)
  {
    seq(|ws|, i requires 0 <= i < |ws| =>
      Packet(HeaderParams(sessionId, i + 1, i + 1 == |ws|, ws[i].encapsulation), ws[i].payload))
  }

  lemma WireParsed(sessionId: uint32, ws: seq<WireFrame>, k: nat)
    requires ValidWire(ws) && 1 <= k <= |ws|
    ensures ParsePacket(WireDatagram(sessionId, ws, k)) == Success(WirePackets(sessionId, ws)[k - 1])
  {
    assert ws[k - 1] in ws;
    var flag: byte := if k == |ws| then 1 else 0;
    WireHeaderRead(sessionId, k, flag, ws[k - 1]);
    assert WireDatagram(sessionId, ws, k).header
        == EncodeUint32(sessionId) + EncodeUint32(k) + [flag] + ws[k - 1].filler + ws[k - 1].encapsulation;
    assert WirePackets(sessionId, ws)[k - 1]
        == Packet(HeaderParams(sessionId, k, flag != 0, ws[k - 1].encapsulation), ws[k - 1].payload);
  }

  lemma WireHeaderRead(sessionId: uint32, k: uint32, flag: byte, w: WireFrame)
    requires |w.filler| == 55
    ensures ReadHeaderParams(EncodeUint32(sessionId) + EncodeUint32(k) + [flag] + w.filler + w.encapsulation)
         == Success(HeaderParams(sessionId, k, flag != 0, w.encapsulation))
  {
    var (id, count) := (EncodeUint32(sessionId), EncodeUint32(k));
    var header := id + count + [flag] + w.filler + w.encapsulation;
    EncodedLittleEndian(sessionId);
    EncodedLittleEndian(k);
    assert header == header + [];
    AnyHeaderRead(header, id, count, flag, w.filler, w.encapsulation, [], sessionId, k);
  }

  /** The arrivals are datagrams of these frames, in this order. */
  predicate OnTheWire(arrivals: seq<Arrival>, sessionId: uint32, ws: seq<WireFrame>, order: seq<nat>)
    requires ValidWire(ws) && FramesOf(order, |ws|)
  {
    |arrivals| == |order| && forall i | 0 <= i < |arrivals| :: WireAt(arrivals, sessionId, ws, order, i)
  }

  predicate WireAt(arrivals: seq<Arrival>, sessionId: uint32, ws: seq<WireFrame>, order: seq<nat>, i: nat)
    requires ValidWire(ws) && FramesOf(order, |ws|) && i < |arrivals| == |order|
  {
    assert order[i] in order;
    arrivals[i].datagram == WireDatagram(sessionId, ws, order[i])
  }

  lemma WireBrings(arrivals: seq<Arrival>, sessionId: uint32, ws: seq<WireFrame>, order: seq<nat>)
    requires ValidWire(ws) && FramesOf(order, |ws|) && OnTheWire(arrivals, sessionId, ws, order)
    ensures Brings(arrivals, Deliveries(WirePackets(sessionId, ws), order), sessionId)
  {
    forall i | 0 <= i < |arrivals|
      ensures ParsePacket(arrivals[i].datagram) == Success(Deliveries(WirePackets(sessionId, ws), order)[i])
      ensures SessionOf(Deliveries(WirePackets(sessionId, ws), order)[i]) == sessionId
    {
      assert order[i] in order;
      assert WireAt(arrivals, sessionId, ws, order, i);
      WireParsed(sessionId, ws, order[i]);
    }
  }

  /** ... and so from the bytes on the wire: the last 48 of a datagram's 112 header bytes wrap its
      payload, whatever stands in the 55 before them. */
  lemma {:induction false} WireDelivered(
    c: ServerConfig, ws: seq<WireFrame>, order: seq<nat>, id: uint32, states: seq<ManagerState>, arrivals: seq<Arrival>)
    returns (q: QueueState, now: int)
    requires c.queue.diodeType == Import && ValidWire(ws)
    requires forall i | 0 <= i < |ws| - 1 :: HasFixedBytes(ws[i].encapsulation)
    requires StoredName(c.queue, ws[|ws| - 1].payload).Success?
    requires FramesOf(order, |ws|) && NotBefore(order, |ws|, c.queue.maxQueueLength)
    requires Run(c, states, arrivals) && order != []
    requires OnTheWire(Only(arrivals, iset{id}), id, ws, order) && InTime(c, Only(arrivals, iset{id}))
    ensures var saved := (|ws| <= 2 || ws[0].encapsulation[20..28] != Zeros(8))
                      && CompletesAt(order, |ws|, c.queue.maxQueueLength, |order|);
            && Restrict(states[|arrivals|], iset{id}) == (if saved then Saved(id, q.calls) else Live(id, q, now))
            && (saved ==> WholePlaintext(WirePackets(id, ws), q.calls + [RenameFile]))
  {
    var fs := WirePackets(id, ws);
    WireWrapped(id, ws);
    WireBrings(Only(arrivals, iset{id}), id, ws, order);
    q, now := WrappedDelivered(c, fs, order, id, states, arrivals);
  }

  lemma WireWrapped(id: uint32, ws: seq<WireFrame>)
    requires ValidWire(ws) && forall i | 0 <= i < |ws| - 1 :: HasFixedBytes(ws[i].encapsulation)
    ensures AllWrapped(WirePackets(id, ws)[..|ws| - 1])
  {
    var data := WirePackets(id, ws)[..|ws| - 1];
    forall p | p in data
      ensures ValidHeader(HeaderOf(p))
    {
      var i :| 0 <= i < |data| && data[i] == p;
      ValidHeaderBytes(ws[i].encapsulation);
    }
  }

  lemma AnyRun(c: ServerConfig, states: seq<ManagerState>, arrivals: seq<Arrival>, mayStop: bool)
    requires Runs(c, states, arrivals, mayStop)
    ensures Run(c, states, arrivals)
  {
    if !mayStop {
      QuietIsRun(c, states, arrivals, true);
    }
  }

  /** A client's transfer is acceptable if and only if the diode lets its chunks pass. */
  lemma SenderAcceptableIff(c: Config, s: Sender)
    requires ServerExtraction(c.extractFilename) && ValidSender(s)
    ensures Acceptable(c, Frames(s)) <==> Passes(c.diodeType, s)
  {
    ClientNumbered(s);
    ClientEof(s);
    ClientEmits(c.diodeType, s, |Frames(s)| - 1);
    StoredForClient(c, s);
  }

  /** The network delivers datagrams of the client in this order. */
  ghost predicate Carried(arrivals: seq<Arrival>, s: Sender, order: seq<nat>)
    requires ValidSender(s) && FramesOf(order, |Datagrams(s)|)
  {
    && |arrivals| == |order|
    && forall i | 0 <= i < |arrivals| :: DatagramAt(arrivals, s, order, i)
  }

  ghost predicate DatagramAt(arrivals: seq<Arrival>, s: Sender, order: seq<nat>, i: nat)
    requires ValidSender(s) && FramesOf(order, |Datagrams(s)|) && i < |arrivals| == |order|
  {
    assert order[i] in order;
    arrivals[i].datagram == Datagrams(s)[order[i] - 1]
  }

  /** The one stream the client's session had is closed, with the whole file. */
  ghost predicate FileSaved(s: Sender, m: ManagerState, calls: seq<Call>) {
    && s.session !in m.streams
    && ClosedOf(m.closed, iset{s.session}) == [Record(s.session, calls)] && ReceivedWhole(s, calls)
  }

  /** The client's session is live, and no stream of it was closed. */
  ghost predicate StillLive(s: Sender, m: ManagerState) {
    s.session in m.streams && ClosedOf(m.closed, iset{s.session}) == []
  }

  lemma CarriedBrings(arrivals: seq<Arrival>, s: Sender, order: seq<nat>)
    requires ValidSender(s) && FramesOf(order, |Datagrams(s)|) && Carried(arrivals, s, order)
    ensures |Frames(s)| == |Datagrams(s)| && Brings(arrivals, Deliveries(Frames(s), order), s.session)
  {
    ClientFrames(s);
    forall i | 0 <= i < |arrivals|
      ensures ParsePacket(arrivals[i].datagram) == Success(Deliveries(Frames(s), order)[i])
      ensures SessionOf(Deliveries(Frames(s), order)[i]) == s.session
    {
      assert order[i] in order;
      assert DatagramAt(arrivals, s, order, i);
    }
  }

  lemma SavedWhole(c: Config, s: Sender, m: ManagerState, calls: seq<Call>)
    requires ServerExtraction(c.extractFilename) && ValidSender(s)
    requires 0 < |Frames(s)| < TWO_32 && WholeAndNamed(c, Frames(s), calls)
    requires Restrict(m, iset{s.session}) == Saved(s.session, calls)
    ensures FileSaved(s, m, calls + [RenameFile])
  {
    WholeFile(c, s, calls);
    assert s.session in m.streams <==> s.session in Restrict(m, iset{s.session}).streams;
  }

  lemma LiveIsLive(s: Sender, m: ManagerState, q: QueueState, now: int)
    requires Restrict(m, iset{s.session}) == Live(s.session, q, now)
    ensures StillLive(s, m)
  {
    assert s.session in m.streams <==> s.session in Restrict(m, iset{s.session}).streams;
  }

  /** The datagrams that arrived are all there, none of the file twice, and met a queue with room. */
  predicate Delivers(s: Sender, order: seq<nat>, q: nat)
    requires ValidSender(s)
  {
    CompletesAt(order, |Datagrams(s)|, q, |order|)
  }

  /** End-to-end delivery. Datagrams of a client arrive in time, in any order, with losses and
      repeats, among any other traffic, on a server that nothing has stopped before. The arrival that
      brings the last missing one saves the client's file, whole and under the name it is to get, if
      and only if the diode lets the file's chunks pass, no data frame arrived twice and the queue was
      never full. Until then, and in every other case, the stream is live and nothing was closed. */
  lemma {:induction false} FileDelivered(
    c: ServerConfig, s: Sender, order: seq<nat>, states: seq<ManagerState>, arrivals: seq<Arrival>)
    returns (calls: seq<Call>)
    requires ServerExtraction(c.queue.extractFilename) && ValidSender(s)
    requires FramesOf(order, |Datagrams(s)|) && NotBefore(order, |Datagrams(s)|, c.queue.maxQueueLength)
    requires Run(c, states, arrivals) && order != []
    requires Carried(Only(arrivals, iset{s.session}), s, order) && InTime(c, Only(arrivals, iset{s.session}))
    ensures if Passes(c.queue.diodeType, s) && Delivers(s, order, c.queue.maxQueueLength)
            then FileSaved(s, states[|arrivals|], calls) else StillLive(s, states[|arrivals|])
  {
    CarriedBrings(Only(arrivals, iset{s.session}), s, order);
    ClientNumbered(s);
    SenderAcceptableIff(c.queue, s);
    var q, now := SessionDelivered(c, Frames(s), order, s.session, states, arrivals);
    calls := q.calls + [RenameFile];
    if Passes(c.queue.diodeType, s) && Delivers(s, order, c.queue.maxQueueLength) {
      SavedWhole(c.queue, s, states[|arrivals|], q.calls);
    } else {
      LiveIsLive(s, states[|arrivals|], q, now);
    }
  }

  lemma OnceNotBefore(order: seq<nat>, m: nat, q: nat)
    requires Permutation(order, m) && 0 < m
    ensures NotBefore(order, m, q) && (CompletesAt(order, m, q, m) <==> NeverFull(order, q))
  {
    forall k | 0 <= k <= m
      ensures CompletesAt(order, m, q, k) <==> 0 < k == m && NeverFull(order, q)
    {
      OnceCompletesIff(order, m, q, k);
    }
  }

  /** A network that delivers every datagram once, and lets none overtake an earlier one by
      maxQueueLength or more, delivers every file that the diode lets pass. */
  lemma {:induction false} WindowedFileDelivered(
    c: ServerConfig, s: Sender, order: seq<nat>, states: seq<ManagerState>, arrivals: seq<Arrival>)
    returns (calls: seq<Call>)
    requires ServerExtraction(c.queue.extractFilename) && ValidSender(s) && Passes(c.queue.diodeType, s)
    requires Permutation(order, |Datagrams(s)|) && Run(c, states, arrivals)
    requires Window(order, c.queue.maxQueueLength) && c.queue.maxQueueLength >= 1
    requires Carried(Only(arrivals, iset{s.session}), s, order) && InTime(c, Only(arrivals, iset{s.session}))
    ensures FileSaved(s, states[|arrivals|], calls)
  {
    ClientNumbered(s);
    WindowNeverFull(order, |order|, c.queue.maxQueueLength);
    OnceNotBefore(order, |order|, c.queue.maxQueueLength);
    calls := FileDelivered(c, s, order, states, arrivals);
  }

  lemma StepNeverThrows(
    c: ServerConfig, ts: TransferMap, m: ManagerState, p: Packet, now: int, next: ManagerState, thrown: Option<Failure>)
    requires ValidTransfers(ts) && SafeManager(c.queue, ts, m) && SessionOf(p) in ts
    requires Genuine(ts[SessionOf(p)], p) && Acceptable(c.queue, ts[SessionOf(p)])
    requires WritesToStream(c, m, p, now, next, thrown)
    ensures thrown == None
  {
    var id, m1 := SessionOf(p), Opened(m, SessionOf(p), now);
    OpenedSafely(c.queue, ts, m, id, now);
    var q := m1.streams[id].queue;
    if !Expired(c, m1.streams[id], now) {
      var w, o :| WriterWrites(c.queue, m1.streams[id], p, now, w, o)
        && next == Settled(m1, id, w, o) && thrown == Thrown(o);
      AcceptableWrite(c.queue, ts[id], q, p, w.queue, o);
    }
  }

  lemma AcceptableWrite(c: Config, fs: seq<Packet>, s: QueueState, p: Packet, t: QueueState, o: Outcome)
    requires Acceptable(c, fs) && Safe(c, fs, s) && Genuine(fs, p) && Writes(c, s, p, t, o)
    ensures !o.Threw?
  {
    AcceptableDrain(c, fs, Enqueued(c, s, p), t, o);
  }

  /** Nothing the network can make of honest clients' datagrams throws, at any point of a run, if
      the diode lets all their chunks pass. */
  lemma HonestNeverThrows(
    c: ServerConfig, senders: map<uint32, Sender>, states: seq<ManagerState>, arrivals: seq<Arrival>, i: nat, p: Packet,
    next: ManagerState, thrown: Option<Failure>)
    requires ServerExtraction(c.queue.extractFilename) && ValidSenders(senders)
    requires forall id | id in senders :: Passes(c.queue.diodeType, senders[id])
    requires Run(c, states, arrivals) && i < |arrivals|
    requires forall a | a in arrivals :: SentBySome(senders, a.datagram)
    requires ParsePacket(arrivals[i].datagram) == Success(p)
    requires WritesToStream(c, states[i], p, arrivals[i].now, next, thrown)
    ensures thrown == None
  {
    HonestRunSafe(c, senders, states, arrivals, i);
    assert Deliverable(TransfersOf(senders), arrivals[i]);
    SenderAcceptableIff(c.queue, senders[SessionOf(p)]);
    StepNeverThrows(c, TransfersOf(senders), states[i], p, arrivals[i].now, next, thrown);
  }
}
