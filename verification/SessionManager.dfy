/** The session map with its time-outs, and the server in front of it
    (src/server/SessionManager.cpp, src/server/Server.cpp). */
module Sessions {
  import opened Common
  import opened EnterpriseDiode
  import opened Streams
  import opened Reordering
  import opened Ordering

  datatype ServerConfig = ServerConfig(queue: Config, timeoutPeriod: uint32)

  /** A stream the manager is done with, and all that was called on it. */
  datatype Record = Record(sessionId: uint32, calls: seq<Call>)

  /** The live sessions, the streams closed so far and the sessions streams were created for. */
  datatype ManagerState = ManagerState(
    streams: map<uint32, WriterState>, closed: seq<Record>, created: seq<uint32>)

  const EMPTY: ManagerState := ManagerState(map[], [], [])

  function SessionOf(p: Packet): uint32 {
    p.headerParams.sessionId
  }

  function Opened(m: ManagerState, id: uint32, now: int): (r: ManagerState)
    ensures id in r.streams
  {
    if id in m.streams then m
    else ManagerState(m.streams[id := WriterState(INITIAL_QUEUE, now)], m.closed, m.created + [id])
  }

  predicate Expired(c: ServerConfig, w: WriterState, now: int) {
    w.timeLastUpdated + c.timeoutPeriod < now
  }

  /** One more call on a live session's stream. */
  function WithCall(m: ManagerState, id: uint32, call: Call): (r: ManagerState)
    requires id in m.streams
    ensures id in r.streams
  {
    m.(streams := m.streams[id := Called(m.streams[id], call)])
  }

  /** closeSession. */
  function Erased(m: ManagerState, id: uint32): ManagerState
    requires id in m.streams
  {
    m.(streams := m.streams - {id}, closed := m.closed + [Record(id, m.streams[id].queue.calls)])
  }

  /** The last call on a session's stream, and the end of the session. */
  function Closed(m: ManagerState, id: uint32, call: Call): ManagerState
    requires id in m.streams
  {
    Erased(WithCall(m, id, call), id)
  }

  /** What follows the write of a packet. */
  function Settled(m: ManagerState, id: uint32, w: WriterState, o: Outcome): ManagerState {
    var written := m.(streams := m.streams[id := w]);
    if o.Complete? then Closed(written, id, RenameFile) else written
  }

  function Thrown(o: Outcome): Option<Failure> {
    if o.Threw? then Some(o.error) else None
  }

  /** writeFileAndSaveIfComplete. */
  ghost predicate WritesAndSaves(
    c: ServerConfig, m: ManagerState, p: Packet, now: int, next: ManagerState, thrown: Option<Failure>)
    requires SessionOf(p) in m.streams
  {
    exists w, o ::
      && WriterWrites(c.queue, m.streams[SessionOf(p)], p, now, w, o)
      && next == Settled(m, SessionOf(p), w, o) && thrown == Thrown(o)
  }

  /** writeToStream. */
  ghost predicate WritesToStream(
    c: ServerConfig, m: ManagerState, p: Packet, now: int, next: ManagerState, thrown: Option<Failure>)
  {
    var id := SessionOf(p);
    var m1 := Opened(m, id, now);
    if Expired(c, m1.streams[id], now) then
      next == Closed(m1, id, DeleteFile) && thrown == None
    else
      WritesAndSaves(c, m1, p, now, next, thrown)
  }

  /** receivePacket: a std::runtime_error, from the header or the session, ends here; any other
      exception escapes. */
  ghost predicate Receives(
    c: ServerConfig, m: ManagerState, d: Datagram, now: int, next: ManagerState, escaped: bool)
  {
    match ParsePacket(d)
    case Failure(e) => next == m && escaped == e.OtherError?
    case Success(p) =>
      exists thrown :: WritesToStream(c, m, p, now, next, thrown) && escaped == (thrown == Some(OtherError))
  }

  /** A datagram with the clock reading at its arrival. */
  datatype Arrival = Arrival(datagram: Datagram, now: int)

  /** The states of a server through a sequence of arrivals. An exception that escapes from the
      packet handler ends the receive loop, so none escapes before the last arrival, and at the
      last one only if the run may stop there. */
  ghost predicate Runs(c: ServerConfig, states: seq<ManagerState>, arrivals: seq<Arrival>, mayStop: bool) {
    && |states| == |arrivals| + 1
    && states[0] == EMPTY
    && forall i | 0 <= i < |arrivals| :: StepAt(c, states, arrivals, mayStop, i)
  }

  ghost predicate StepAt(c: ServerConfig, states: seq<ManagerState>, arrivals: seq<Arrival>, mayStop: bool, i: nat)
    requires i < |arrivals| < |states|
  {
    Steps(c, states[i], arrivals[i], states[i + 1], mayStop && i + 1 == |arrivals|)
  }

  /** One arrival, from which an exception may escape or not. */
  ghost predicate Steps(c: ServerConfig, m: ManagerState, a: Arrival, next: ManagerState, mayEscape: bool) {
    Receives(c, m, a.datagram, a.now, next, false) || (mayEscape && Receives(c, m, a.datagram, a.now, next, true))
  }

  /** Every run of the program, the last arrival being the one that stopped it or not. */
  ghost predicate Run(c: ServerConfig, states: seq<ManagerState>, arrivals: seq<Arrival>) {
    Runs(c, states, arrivals, true)
  }

  /** A run that has not been stopped. */
  ghost predicate QuietRun(c: ServerConfig, states: seq<ManagerState>, arrivals: seq<Arrival>) {
    Runs(c, states, arrivals, false)
  }

  lemma RunBefore(c: ServerConfig, states: seq<ManagerState>, arrivals: seq<Arrival>, mayStop: bool)
    requires Runs(c, states, arrivals, mayStop) && arrivals != []
    ensures QuietRun(c, states[..|arrivals|], arrivals[..|arrivals| - 1])
    ensures Steps(c, states[|arrivals| - 1], arrivals[|arrivals| - 1], states[|arrivals|], mayStop)
  {
    var shorter, fewer := states[..|arrivals|], arrivals[..|arrivals| - 1];
    forall i | 0 <= i < |fewer|
      ensures StepAt(c, shorter, fewer, false, i)
    {
      assert StepAt(c, states, arrivals, mayStop, i);
    }
    assert StepAt(c, states, arrivals, mayStop, |arrivals| - 1);
  }

  lemma RunAfter(
    c: ServerConfig, states: seq<ManagerState>, arrivals: seq<Arrival>, a: Arrival, next: ManagerState, mayStop: bool)
    requires QuietRun(c, states, arrivals) && Steps(c, states[|arrivals|], a, next, mayStop)
    ensures Runs(c, states + [next], arrivals + [a], mayStop)
  {
    var longer, more := states + [next], arrivals + [a];
    forall i | 0 <= i < |more|
      ensures StepAt(c, longer, more, mayStop, i)
    {
      if i < |arrivals| {
        assert StepAt(c, states, arrivals, false, i);
      }
    }
  }

  lemma QuietIsRun(c: ServerConfig, states: seq<ManagerState>, arrivals: seq<Arrival>, mayStop: bool)
    requires QuietRun(c, states, arrivals)
    ensures Runs(c, states, arrivals, mayStop)
  {
    forall i | 0 <= i < |arrivals|
      ensures StepAt(c, states, arrivals, mayStop, i)
    {
      assert StepAt(c, states, arrivals, false, i);
    }
  }

  lemma StepOfRun(c: ServerConfig, states: seq<ManagerState>, arrivals: seq<Arrival>, i: nat)
    requires Run(c, states, arrivals) && i < |arrivals|
    ensures Steps(c, states[i], arrivals[i], states[i + 1], true)
    ensures i + 1 < |arrivals| ==> Steps(c, states[i], arrivals[i], states[i + 1], false)
  {
    assert StepAt(c, states, arrivals, true, i);
  }

  class SessionManager {
    const config: ServerConfig
    var streams: map<uint32, OrderingStreamWriter>
    /** The abstract state, and the objects of the live sessions. */
    ghost var State: ManagerState
    ghost var Repr: set<object>

    /** A session's objects are its own and show the abstract state. */
    ghost predicate Shown(id: uint32)
      requires id in streams && id in State.streams
      reads this, Repr
    {
      var w := streams[id];
      && w.Repr <= Repr && w.Valid() && w.packetQueue.config == config.queue
      && w.State == State.streams[id]
    }

    /** The abstract state shows every live session as it is, and live sessions share nothing. */
    ghost predicate Valid()
      reads this, Repr
    {
      && this !in Repr
      && State.streams.Keys == streams.Keys
      && (forall id | id in streams :: Shown(id))
      && (forall a, b | a in streams && b in streams && a != b :: streams[a].Repr !! streams[b].Repr)
    }

    constructor (config: ServerConfig)
      ensures this.config == config && Valid() && State == EMPTY && Repr == {}
    {
      this.config := config;
      streams := map[];
      State, Repr := EMPTY, {};
    }

    method WriteToStream(packet: Packet, now: int) returns (thrown: Option<Failure>)
      requires Valid()
      modifies this, Repr
      ensures Valid() && fresh(Repr - old(Repr))
      ensures WritesToStream(config, old(State), packet, now, State, thrown)
    {
      var id := SessionOf(packet);
      CreateSessionIfNewId(id, now);
      var expired := IsStreamExpired(id, now);
      if expired {
        DropSession(id);
        return None;
      }
      thrown := WriteFileAndSaveIfComplete(packet, now);
    }

    /** What happens to an expired stream. */
    method DropSession(id: uint32)
      requires Valid() && id in State.streams
      modifies this, Repr
      ensures Valid() && Repr <= old(Repr) && State == Closed(old(State), id, Call.DeleteFile)
    {
      assert Shown(id);
      DeleteFile(id);
      CloseSession(id);
    }

    method CreateSessionIfNewId(id: uint32, now: int)
      requires Valid()
      modifies this
      ensures Valid() && fresh(Repr - old(Repr))
      ensures State == Opened(old(State), id, now)
    {
      if id !in streams {
        CreateNewSession(id, now);
      }
    }

    /** A new stream and the writer that will own it. */
    method CreateWriter(now: int) returns (writer: OrderingStreamWriter)
      ensures writer.Valid() && fresh(writer.Repr) && writer.packetQueue.config == config.queue
      ensures writer.State == WriterState(INITIAL_QUEUE, now)
    {
      var stream := new Stream();
      writer := new OrderingStreamWriter(config.queue, stream, now);
    }

    method CreateNewSession(id: uint32, now: int)
      requires Valid() && id !in streams
      modifies this
      ensures Valid() && fresh(Repr - old(Repr))
      ensures State == Opened(old(State), id, now)
    {
      var writer := CreateWriter(now);
      streams := streams[id := writer];
      State := Opened(State, id, now);
      Repr := Repr + writer.Repr;
      forall other | other in streams
        ensures Shown(other) && (other != id ==> streams[other].Repr !! writer.Repr)
      {
        assert other != id ==> old(Shown(other));
      }
    }

    method IsStreamExpired(id: uint32, now: int) returns (expired: bool)
      requires Valid() && id in State.streams
      ensures expired == Expired(config, State.streams[id], now)
    {
      expired := streams[id].timeLastUpdated + config.timeoutPeriod < now;
    }

    /** After calls on one session's objects alone, if the abstract state shows that session as it
        is, it shows all of them. */
    twostate lemma StillValid(id: uint32)
      requires old(Valid()) && id in streams && streams == old(streams) && Repr == old(Repr)
      requires unchanged(Repr - streams[id].Repr)
      requires id in State.streams && State.streams == old(State).streams[id := State.streams[id]]
      requires Shown(id)
      ensures Valid()
    {
      forall other | other in streams
        ensures Shown(other)
      {
        assert old(Shown(other));
        assert other != id ==> streams[other].Repr !! streams[id].Repr;
      }
    }

    method DeleteFile(id: uint32)
      requires Valid() && id in State.streams
      modifies `State, streams[id].Repr
      ensures Valid() && State == WithCall(old(State), id, Call.DeleteFile)
    {
      assert Shown(id);
      streams[id].DeleteFile();
      State := WithCall(State, id, Call.DeleteFile);
      StillValid(id);
    }

    method RenameFile(id: uint32)
      requires Valid() && id in State.streams
      modifies `State, streams[id].Repr
      ensures Valid() && State == WithCall(old(State), id, Call.RenameFile)
    {
      assert Shown(id);
      streams[id].RenameFile();
      State := WithCall(State, id, Call.RenameFile);
      StillValid(id);
    }

    /** The write of a packet to its session. */
    method WriteToSession(packet: Packet, now: int) returns (o: Outcome)
      requires Valid() && SessionOf(packet) in State.streams
      modifies `State, streams[SessionOf(packet)].Repr
      ensures Valid() && SessionOf(packet) in State.streams
      ensures WriterWrites(config.queue, old(State).streams[SessionOf(packet)], packet, now,
                           State.streams[SessionOf(packet)], o)
      ensures State == old(State).(streams := old(State).streams[SessionOf(packet) := State.streams[SessionOf(packet)]])
    {
      var id := SessionOf(packet);
      var writer := streams[id];
      assert Shown(id);
      o := writer.Write(packet, now);
      State := State.(streams := State.streams[id := writer.State]);
      StillValid(id);
    }

    method WriteFileAndSaveIfComplete(packet: Packet, now: int) returns (thrown: Option<Failure>)
      requires Valid() && SessionOf(packet) in State.streams
      modifies this, Repr
      ensures Valid() && Repr <= old(Repr)
      ensures WritesAndSaves(config, old(State), packet, now, State, thrown)
    {
      var id := SessionOf(packet);
      assert Shown(id);
      var o := WriteToSession(packet, now);
      ghost var w := State.streams[id];
      if o == Complete {
        assert Shown(id);
        RenameFile(id);
        CloseSession(id);
      }
      assert State == Settled(old(State), id, w, o);
      thrown := Thrown(o);
    }

    /** Erases the session; nothing of it is part of a live session any more. */
    method CloseSession(id: uint32)
      requires Valid() && id in State.streams
      modifies this
      ensures Valid() && Repr == old(Repr) - old(streams[id].Repr)
      ensures State == Erased(old(State), id)
    {
      assert Shown(id);
      Repr := Repr - streams[id].Repr;
      streams := streams - {id};
      State := Erased(State, id);
      forall other | other in streams
        ensures Shown(other)
      {
        assert old(Shown(other));
      }
    }
  }
}
