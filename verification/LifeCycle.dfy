/** The life of every stream the server creates, over every run, with either diode and whatever
    arrives: it is written, and then either named and renamed, or deleted, once. */
module LifeCycle {
  import opened Common
  import opened EnterpriseDiode
  import opened Streams
  import opened Reordering
  import opened Ordering
  import opened Sessions

  predicate Renamed(calls: seq<Call>) {
    && |calls| >= 2 && OnlyWrites(calls[..|calls| - 2])
    && calls[|calls| - 2].SetStoredFilename? && calls[|calls| - 1].RenameFile?
  }

  predicate Deleted(calls: seq<Call>) {
    |calls| >= 1 && OnlyWrites(calls[..|calls| - 1]) && calls[|calls| - 1].DeleteFile?
  }

  function SessionsOf(closed: seq<Record>): multiset<uint32> {
    if closed == [] then multiset{}
    else SessionsOf(closed[..|closed| - 1]) + multiset{closed[|closed| - 1].sessionId}
  }

  /** Every stream created is live or closed, at most one is live for a session; the live ones have
      only been written, the closed ones are either named, renamed and no more, or deleted. */
  ghost predicate Accounted(m: ManagerState) {
    && multiset(m.created) == multiset(m.streams.Keys) + SessionsOf(m.closed)
    && (forall id | id in m.streams :: OnlyWrites(m.streams[id].queue.calls))
    && (forall r | r in m.closed :: Renamed(r.calls) || Deleted(r.calls))
  }

  /** Nothing that was called on a live stream, or on one closed earlier, is undone or forgotten. */
  predicate Keeps(m: ManagerState, next: ManagerState) {
    && m.created <= next.created && m.closed <= next.closed
    && (forall id | id in m.streams :: Carries(m, next, id))
  }

  /** The session's stream is still live, or it is the one that has just been closed. */
  predicate Carries(m: ManagerState, next: ManagerState, id: uint32)
    requires id in m.streams
  {
    var calls := m.streams[id].queue.calls;
    || (id in next.streams && calls <= next.streams[id].queue.calls)
    || (&& |next.closed| == |m.closed| + 1 && next.closed[|m.closed|].sessionId == id
        && calls <= next.closed[|m.closed|].calls)
  }

  /** A drain writes, and sets a name only if it completes. */
  lemma {:induction false} DrainWrites(c: Config, s: QueueState, t: QueueState, o: Outcome)
    requires OnlyWrites(s.calls) && Drains(c, s, t, o)
    ensures s.calls <= t.calls
    ensures o != Complete ==> OnlyWrites(t.calls)
    ensures o == Complete ==> Renamed(t.calls + [RenameFile])
    decreases |s.queue|
  {
    if Ready(s) {
      var top := DrainTurn(c, s, t, o);
      match Served(c, s, top)
      case Advanced(next) => DrainWrites(c, next, t, o);
      case Finished(last) => assert (last.calls + [RenameFile])[..|s.calls|] == s.calls;
      case Failed(_) =>
    } else {
      DrainStopped(c, s, t, o);
    }
  }

  lemma SessionsAppend(closed: seq<Record>, r: Record)
    ensures SessionsOf(closed + [r]) == SessionsOf(closed) + multiset{r.sessionId}
  {
    assert (closed + [r])[..|closed|] == closed;
  }

  lemma OpenedAccounted(m: ManagerState, id: uint32, now: int)
    requires Accounted(m)
    ensures Accounted(Opened(m, id, now))
  {
    assert id !in m.streams ==> Opened(m, id, now).streams.Keys == m.streams.Keys + {id};
  }

  lemma OpenedKeeps(m: ManagerState, id: uint32, now: int, next: ManagerState)
    requires Keeps(Opened(m, id, now), next)
    ensures Keeps(m, next)
  {
    forall other | other in m.streams
      ensures Carries(m, next, other)
    {
      assert Carries(Opened(m, id, now), next, other);
    }
  }

  /** The session's stream closes with these calls. */
  function Ended(m: ManagerState, id: uint32, calls: seq<Call>): ManagerState {
    ManagerState(m.streams - {id}, m.closed + [Record(id, calls)], m.created)
  }

  lemma EndedAccounted(m: ManagerState, id: uint32, calls: seq<Call>)
    requires Accounted(m) && id in m.streams && (Renamed(calls) || Deleted(calls))
    ensures Accounted(Ended(m, id, calls))
  {
    SessionsAppend(m.closed, Record(id, calls));
    assert Ended(m, id, calls).streams.Keys == m.streams.Keys - {id};
  }

  lemma EndedKeeps(m: ManagerState, id: uint32, calls: seq<Call>)
    requires id in m.streams && m.streams[id].queue.calls <= calls
    ensures Keeps(m, Ended(m, id, calls))
  {
    forall other | other in m.streams
      ensures Carries(m, Ended(m, id, calls), other)
    {
    }
  }

  /** A session's stream is closed after further calls. */
  lemma ClosedAccounted(m: ManagerState, id: uint32, w: WriterState, call: Call)
    requires Accounted(m) && id in m.streams && m.streams[id].queue.calls <= w.queue.calls
    requires Renamed(w.queue.calls + [call]) || Deleted(w.queue.calls + [call])
    ensures var next := Closed(m.(streams := m.streams[id := w]), id, call); Accounted(next) && Keeps(m, next)
  {
    var calls := w.queue.calls + [call];
    assert m.streams[id := w][id := Called(w, call)] - {id} == m.streams - {id};
    assert Closed(m.(streams := m.streams[id := w]), id, call) == Ended(m, id, calls);
    EndedAccounted(m, id, calls);
    EndedKeeps(m, id, calls);
  }

  lemma ExpiredAccounted(m: ManagerState, id: uint32)
    requires Accounted(m) && id in m.streams
    ensures Accounted(Closed(m, id, DeleteFile)) && Keeps(m, Closed(m, id, DeleteFile))
  {
    var w := m.streams[id];
    assert m.(streams := m.streams[id := w]) == m;
    assert (w.queue.calls + [DeleteFile])[..|w.queue.calls|] == w.queue.calls;
    ClosedAccounted(m, id, w, DeleteFile);
  }

  lemma {:induction false} SettledAccounted(c: Config, m: ManagerState, p: Packet, now: int, w: WriterState, o: Outcome)
    requires Accounted(m) && SessionOf(p) in m.streams
    requires WriterWrites(c, m.streams[SessionOf(p)], p, now, w, o)
    ensures var next := Settled(m, SessionOf(p), w, o); Accounted(next) && Keeps(m, next)
  {
    var id := SessionOf(p);
    DrainWrites(c, Enqueued(c, m.streams[id].queue, p), w.queue, o);
    if o == Complete {
      ClosedAccounted(m, id, w, RenameFile);
    } else {
      assert m.streams[id := w].Keys == m.streams.Keys;
    }
  }

  lemma {:induction false} PacketAccounted(
    c: ServerConfig, m: ManagerState, p: Packet, now: int, next: ManagerState, thrown: Option<Failure>)
    requires Accounted(m) && WritesToStream(c, m, p, now, next, thrown)
    ensures Accounted(next) && Keeps(m, next)
  {
    var id, m1 := SessionOf(p), Opened(m, SessionOf(p), now);
    OpenedAccounted(m, id, now);
    if Expired(c, m1.streams[id], now) {
      ExpiredAccounted(m1, id);
    } else {
      var w, o :| WriterWrites(c.queue, m1.streams[id], p, now, w, o)
        && next == Settled(m1, id, w, o) && thrown == Thrown(o);
      SettledAccounted(c.queue, m1, p, now, w, o);
    }
    OpenedKeeps(m, id, now, next);
  }

  /** One arrival of anything: the account stays balanced, and no stream loses anything. */
  lemma {:induction false} StepAccounted(c: ServerConfig, m: ManagerState, a: Arrival, next: ManagerState)
    requires Accounted(m) && Steps(c, m, a, next, true)
    ensures Accounted(next) && Keeps(m, next)
  {
    if ParsePacket(a.datagram).Success? {
      var p := ParsePacket(a.datagram).value;
      var thrown :| WritesToStream(c, m, p, a.now, next, thrown);
      PacketAccounted(c, m, p, a.now, next, thrown);
    }
  }

  /** In every state of every run: streams created are the live, the renamed and the deleted ones,
      and none is both. */
  lemma {:induction false} StreamsAccounted(
    c: ServerConfig, states: seq<ManagerState>, arrivals: seq<Arrival>, i: nat)
    requires Run(c, states, arrivals) && i < |states|
    ensures Accounted(states[i])
  {
    if i > 0 {
      StreamsAccounted(c, states, arrivals, i - 1);
      StepOfRun(c, states, arrivals, i - 1);
      StepAccounted(c, states[i - 1], arrivals[i - 1], states[i]);
    }
  }

  /** From state to state nothing that was called on a stream is undone or forgotten. */
  lemma NothingUndone(c: ServerConfig, states: seq<ManagerState>, arrivals: seq<Arrival>, i: nat)
    requires Run(c, states, arrivals) && i < |arrivals|
    ensures Keeps(states[i], states[i + 1])
  {
    StreamsAccounted(c, states, arrivals, i);
    StepOfRun(c, states, arrivals, i);
    StepAccounted(c, states[i], arrivals[i], states[i + 1]);
  }

  /** Once closed, a stream stays as it is for the rest of the run. */
  lemma {:induction false} ClosedForGood(
    c: ServerConfig, states: seq<ManagerState>, arrivals: seq<Arrival>, i: nat, j: nat)
    requires Run(c, states, arrivals) && i <= j < |states|
    ensures states[i].closed <= states[j].closed
    decreases j
  {
    if i < j {
      ClosedForGood(c, states, arrivals, i, j - 1);
      NothingUndone(c, states, arrivals, j - 1);
    }
  }
}
