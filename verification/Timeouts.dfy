/** Session clocks: when exactly the server gives a session up. */
module Timeouts {
  import opened Common
  import opened EnterpriseDiode
  import opened Streams
  import opened Reordering
  import opened Ordering
  import opened Sessions
  import opened Isolation

  /** A session that lives after its own packet has that packet's time on its clock. */
  lemma OwnPacketSetsClock(
    c: ServerConfig, m: ManagerState, p: Packet, now: int, next: ManagerState, thrown: Option<Failure>)
    requires WritesToStream(c, m, p, now, next, thrown) && SessionOf(p) in next.streams
    ensures next.streams[SessionOf(p)].timeLastUpdated == now
  {
    var id, m1 := SessionOf(p), Opened(m, SessionOf(p), now);
    if !Expired(c, m1.streams[id], now) {
      var w, o :| WriterWrites(c.queue, m1.streams[id], p, now, w, o)
        && next == Settled(m1, id, w, o) && thrown == Thrown(o);
    }
  }

  /** In every run the clock of a live session shows the arrival of its last packet, dropped,
      thrown on or written. */
  lemma {:induction false} ClockShowsLastArrival(
    c: ServerConfig, states: seq<ManagerState>, arrivals: seq<Arrival>, id: uint32)
    requires Run(c, states, arrivals) && id in states[|arrivals|].streams
    ensures var own := Only(arrivals, iset{id});
            own != [] && states[|arrivals|].streams[id].timeLastUpdated == own[|own| - 1].now
    decreases |arrivals|
  {
    var n := |arrivals| - 1;
    assert n >= 0;
    var m, a, next := states[n], arrivals[n], states[n + 1];
    RunBefore(c, states, arrivals, true);
    QuietIsRun(c, states[..n + 1], arrivals[..n], true);
    if Addresses(a, iset{id}) {
      var p := ParsePacket(a.datagram).value;
      var thrown :| WritesToStream(c, m, p, a.now, next, thrown);
      OwnPacketSetsClock(c, m, p, a.now, next, thrown);
    } else {
      StepApart(c, m, a, next, true, iset{id});
      assert id in Restrict(next, iset{id}).streams;
      assert Restrict(next, iset{id}).streams[id] == Restrict(m, iset{id}).streams[id];
      ClockShowsLastArrival(c, states[..n + 1], arrivals[..n], id);
    }
  }

  /** A packet that comes for a live session deletes its stream, and is itself lost, if the session's
      clock is more than the time-out behind, and only then. */
  lemma DeletesIffExpired(
    c: ServerConfig, m: ManagerState, p: Packet, now: int, next: ManagerState, thrown: Option<Failure>)
    requires WritesToStream(c, m, p, now, next, thrown) && SessionOf(p) in m.streams
    ensures next == Closed(m, SessionOf(p), DeleteFile)
       <==> now - m.streams[SessionOf(p)].timeLastUpdated > c.timeoutPeriod
  {
    var id := SessionOf(p);
    if !Expired(c, m.streams[id], now) {
      var w, o :| WriterWrites(c.queue, m.streams[id], p, now, w, o) && next == Settled(m, id, w, o);
      var deleted := Closed(m, id, DeleteFile);
      assert deleted.closed[|m.closed|].calls[|m.streams[id].queue.calls|] == DeleteFile;
      if o == Complete {
        assert next.closed[|m.closed|].calls == w.queue.calls + [RenameFile];
        var calls := next.closed[|m.closed|].calls;
        assert calls[|calls| - 1] == RenameFile;
      } else {
        assert next.closed == m.closed;
      }
    }
  }

  /** In every run, a packet for a live session makes the server delete that session's stream if
      and only if it comes more than the time-out after the session's previous packet. */
  lemma TimeoutIsExact(c: ServerConfig, states: seq<ManagerState>, arrivals: seq<Arrival>, id: uint32)
    requires Run(c, states, arrivals) && arrivals != [] && Addresses(arrivals[|arrivals| - 1], iset{id})
    requires id in states[|arrivals| - 1].streams
    ensures var n, own := |arrivals|, Only(arrivals, iset{id});
            && |own| >= 2
            && (states[n] == Closed(states[n - 1], id, DeleteFile)
                <==> own[|own| - 1].now - own[|own| - 2].now > c.timeoutPeriod)
  {
    var n := |arrivals| - 1;
    var m, a, next := states[n], arrivals[n], states[n + 1];
    RunBefore(c, states, arrivals, true);
    QuietIsRun(c, states[..n + 1], arrivals[..n], true);
    ClockShowsLastArrival(c, states[..n + 1], arrivals[..n], id);
    var p := ParsePacket(a.datagram).value;
    var thrown :| WritesToStream(c, m, p, a.now, next, thrown);
    DeletesIffExpired(c, m, p, a.now, next, thrown);
  }
}
