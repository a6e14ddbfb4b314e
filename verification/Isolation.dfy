/** Sessions do not influence each other: the server does to some of the sessions what it would do
    if their packets were all it received. */
module Isolation {
  import opened Common
  import opened EnterpriseDiode
  import opened Streams
  import opened Reordering
  import opened Ordering
  import opened Sessions

  /** A datagram with a packet of one of the sessions. */
  ghost predicate Addresses(a: Arrival, ids: iset<uint32>) {
    var p := ParsePacket(a.datagram);
    p.Success? && SessionOf(p.value) in ids
  }

  /** The arrivals of these sessions' packets. */
  ghost function Only(arrivals: seq<Arrival>, ids: iset<uint32>): seq<Arrival> {
    if arrivals == [] then []
    else
      var last := arrivals[|arrivals| - 1];
      var before := Only(arrivals[..|arrivals| - 1], ids);
      if Addresses(last, ids) then before + [last] else before
  }

  ghost function ClosedOf(closed: seq<Record>, ids: iset<uint32>): seq<Record> {
    if closed == [] then []
    else
      var last := closed[|closed| - 1];
      var before := ClosedOf(closed[..|closed| - 1], ids);
      if last.sessionId in ids then before + [last] else before
  }

  ghost function CreatedOf(created: seq<uint32>, ids: iset<uint32>): seq<uint32> {
    if created == [] then []
    else
      var last := created[|created| - 1];
      var before := CreatedOf(created[..|created| - 1], ids);
      if last in ids then before + [last] else before
  }

  /** What the server has done for these sessions. */
  ghost function Restrict(m: ManagerState, ids: iset<uint32>): ManagerState {
    ManagerState(
      map id | id in m.streams && id in ids :: m.streams[id], ClosedOf(m.closed, ids), CreatedOf(m.created, ids))
  }

  /** All other sessions. */
  ghost function Others(ids: iset<uint32>): iset<uint32> {
    iset id: uint32 | id !in ids
  }

  lemma ClosedAppend(closed: seq<Record>, r: Record, ids: iset<uint32>)
    ensures ClosedOf(closed + [r], ids)
         == if r.sessionId in ids then ClosedOf(closed, ids) + [r] else ClosedOf(closed, ids)
  {
    assert (closed + [r])[..|closed|] == closed;
  }

  lemma CreatedAppend(created: seq<uint32>, id: uint32, ids: iset<uint32>)
    ensures CreatedOf(created + [id], ids)
         == if id in ids then CreatedOf(created, ids) + [id] else CreatedOf(created, ids)
  {
    assert (created + [id])[..|created|] == created;
  }

  lemma OpenedApart(m: ManagerState, id: uint32, now: int, ids: iset<uint32>)
    ensures Restrict(Opened(m, id, now), ids)
         == if id in ids then Opened(Restrict(m, ids), id, now) else Restrict(m, ids)
  {
    CreatedAppend(m.created, id, ids);
  }

  lemma ClosedApart(m: ManagerState, id: uint32, call: Call, ids: iset<uint32>)
    requires id in m.streams
    ensures Restrict(Closed(m, id, call), ids)
         == if id in ids then Closed(Restrict(m, ids), id, call) else Restrict(m, ids)
  {
    ClosedAppend(m.closed, Record(id, m.streams[id].queue.calls + [call]), ids);
    assert id in ids ==> Restrict(Closed(m, id, call), ids).streams == Closed(Restrict(m, ids), id, call).streams;
  }

  lemma WrittenApart(m: ManagerState, id: uint32, w: WriterState, ids: iset<uint32>)
    requires id in m.streams
    ensures var (written, apart) := (m.(streams := m.streams[id := w]), Restrict(m, ids));
            Restrict(written, ids) == if id in ids then apart.(streams := apart.streams[id := w]) else apart
  {
  }

  lemma SettledApart(m: ManagerState, id: uint32, w: WriterState, o: Outcome, ids: iset<uint32>)
    requires id in m.streams
    ensures Restrict(Settled(m, id, w, o), ids)
         == if id in ids then Settled(Restrict(m, ids), id, w, o) else Restrict(m, ids)
  {
    WrittenApart(m, id, w, ids);
    ClosedApart(m.(streams := m.streams[id := w]), id, RenameFile, ids);
  }

  /** A packet of one of the sessions: the server's step, restricted to them, is a step on them
      alone ... */
  lemma OwnStep(
    c: ServerConfig, m: ManagerState, p: Packet, now: int, next: ManagerState, thrown: Option<Failure>,
    ids: iset<uint32>)
    requires WritesToStream(c, m, p, now, next, thrown) && SessionOf(p) in ids
    ensures WritesToStream(c, Restrict(m, ids), p, now, Restrict(next, ids), thrown)
  {
    var id := SessionOf(p);
    var m1 := Opened(m, id, now);
    OpenedApart(m, id, now, ids);
    if Expired(c, m1.streams[id], now) {
      ClosedApart(m1, id, DeleteFile, ids);
    } else {
      var w, o :| WriterWrites(c.queue, m1.streams[id], p, now, w, o)
        && next == Settled(m1, id, w, o) && thrown == Thrown(o);
      SettledApart(m1, id, w, o, ids);
    }
  }

  /** ... and every step on them alone is such a restriction. */
  lemma OwnStepLifts(
    c: ServerConfig, m: ManagerState, p: Packet, now: int, apart: ManagerState, thrown: Option<Failure>,
    ids: iset<uint32>)
    returns (next: ManagerState)
    requires WritesToStream(c, Restrict(m, ids), p, now, apart, thrown) && SessionOf(p) in ids
    ensures WritesToStream(c, m, p, now, next, thrown) && Restrict(next, ids) == apart
  {
    var id := SessionOf(p);
    var m1 := Opened(m, id, now);
    OpenedApart(m, id, now, ids);
    if Expired(c, m1.streams[id], now) {
      ClosedApart(m1, id, DeleteFile, ids);
      next := Closed(m1, id, DeleteFile);
    } else {
      var w, o :| WriterWrites(c.queue, m1.streams[id], p, now, w, o)
        && apart == Settled(Restrict(m1, ids), id, w, o) && thrown == Thrown(o);
      SettledApart(m1, id, w, o, ids);
      next := Settled(m1, id, w, o);
    }
  }

  /** A packet of another session, whatever becomes of it, leaves the sessions as they are. */
  lemma {:induction false} ForeignStep(
    c: ServerConfig, m: ManagerState, p: Packet, now: int, next: ManagerState, thrown: Option<Failure>,
    ids: iset<uint32>)
    requires WritesToStream(c, m, p, now, next, thrown) && SessionOf(p) !in ids
    ensures Restrict(next, ids) == Restrict(m, ids)
  {
    var id := SessionOf(p);
    var m1 := Opened(m, id, now);
    OpenedApart(m, id, now, ids);
    if Expired(c, m1.streams[id], now) {
      ClosedApart(m1, id, DeleteFile, ids);
    } else {
      var w, o :| WriterWrites(c.queue, m1.streams[id], p, now, w, o)
        && next == Settled(m1, id, w, o) && thrown == Thrown(o);
      SettledApart(m1, id, w, o, ids);
    }
  }

  lemma StepApart(
    c: ServerConfig, m: ManagerState, a: Arrival, next: ManagerState, mayEscape: bool, ids: iset<uint32>)
    requires Steps(c, m, a, next, mayEscape)
    ensures if Addresses(a, ids) then Steps(c, Restrict(m, ids), a, Restrict(next, ids), mayEscape)
            else Restrict(next, ids) == Restrict(m, ids)
  {
    var packet := ParsePacket(a.datagram);
    if packet.Success? {
      var p := packet.value;
      var thrown :| WritesToStream(c, m, p, a.now, next, thrown) && (mayEscape || thrown != Some(OtherError));
      if SessionOf(p) in ids {
        OwnStep(c, m, p, a.now, next, thrown, ids);
        assert Receives(c, Restrict(m, ids), a.datagram, a.now, Restrict(next, ids), thrown == Some(OtherError));
      } else {
        ForeignStep(c, m, p, a.now, next, thrown, ids);
      }
    }
  }

  /** A step on one part of the sessions is a step on all of them that leaves the rest alone. */
  lemma StepLifts(
    c: ServerConfig, m: ManagerState, a: Arrival, apart: ManagerState, mayEscape: bool, ids: iset<uint32>)
    returns (next: ManagerState)
    requires Addresses(a, ids) && Steps(c, Restrict(m, ids), a, apart, mayEscape)
    ensures Steps(c, m, a, next, mayEscape)
    ensures Restrict(next, ids) == apart && Restrict(next, Others(ids)) == Restrict(m, Others(ids))
  {
    var p := ParsePacket(a.datagram).value;
    var thrown :| WritesToStream(c, Restrict(m, ids), p, a.now, apart, thrown)
      && (mayEscape || thrown != Some(OtherError));
    next := OwnStepLifts(c, m, p, a.now, apart, thrown, ids);
    ForeignStep(c, m, p, a.now, next, thrown, Others(ids));
    assert Receives(c, m, a.datagram, a.now, next, thrown == Some(OtherError));
  }

  /** The states of the sessions after their own arrivals. */
  ghost function View(states: seq<ManagerState>, arrivals: seq<Arrival>, ids: iset<uint32>): (view: seq<ManagerState>)
    requires |states| == |arrivals| + 1
    ensures |view| == |Only(arrivals, ids)| + 1
  {
    if arrivals == [] then [Restrict(states[0], ids)]
    else
      var n := |arrivals|;
      var before := View(states[..n], arrivals[..n - 1], ids);
      if Addresses(arrivals[n - 1], ids) then before + [Restrict(states[n], ids)] else before
  }

  ghost predicate LastIn(arrivals: seq<Arrival>, ids: iset<uint32>) {
    arrivals != [] && Addresses(arrivals[|arrivals| - 1], ids)
  }

  /** In every run, what happens to some of the sessions is a run of the server on their arrivals
      alone, with the same clock readings; it ends in what the whole run did for them. Only if the
      whole run stops at an arrival of theirs may it stop too. */
  lemma {:induction false} SessionRuns(
    c: ServerConfig, states: seq<ManagerState>, arrivals: seq<Arrival>, mayStop: bool, ids: iset<uint32>)
    requires Runs(c, states, arrivals, mayStop)
    ensures Runs(c, View(states, arrivals, ids), Only(arrivals, ids), mayStop && LastIn(arrivals, ids))
    ensures View(states, arrivals, ids)[|Only(arrivals, ids)|] == Restrict(states[|arrivals|], ids)
    decreases |arrivals|
  {
    if arrivals == [] {
      NothingApart(ids);
    } else {
      var n := |arrivals|;
      var before, a := arrivals[..n - 1], arrivals[n - 1];
      RunBefore(c, states, arrivals, mayStop);
      SessionRuns(c, states[..n], before, false, ids);
      StepApart(c, states[n - 1], a, states[n], mayStop, ids);
      if Addresses(a, ids) {
        RunAfter(c, View(states[..n], before, ids), Only(before, ids), a, Restrict(states[n], ids), mayStop);
      }
    }
  }

  lemma NothingApart(ids: iset<uint32>)
    ensures Restrict(EMPTY, ids) == EMPTY
  {
  }

  lemma ViewAfter(states: seq<ManagerState>, arrivals: seq<Arrival>, a: Arrival, next: ManagerState, ids: iset<uint32>)
    requires |states| == |arrivals| + 1
    ensures var view := View(states, arrivals, ids);
            View(states + [next], arrivals + [a], ids)
              == if Addresses(a, ids) then view + [Restrict(next, ids)] else view
  {
    assert (states + [next])[..|arrivals| + 1] == states && (arrivals + [a])[..|arrivals|] == arrivals;
  }

  /** A run on the sessions' arrivals, the last arrival being one of theirs. */
  lemma OwnLast(c: ServerConfig, view: seq<ManagerState>, arrivals: seq<Arrival>, mayStop: bool, ids: iset<uint32>)
    requires LastIn(arrivals, ids) && Runs(c, view, Only(arrivals, ids), mayStop)
    ensures |view| >= 2 && view == view[..|view| - 1] + [view[|view| - 1]]
    ensures QuietRun(c, view[..|view| - 1], Only(arrivals[..|arrivals| - 1], ids))
    ensures Steps(c, view[|view| - 2], arrivals[|arrivals| - 1], view[|view| - 1], mayStop)
  {
    var own := Only(arrivals, ids);
    RunBefore(c, view, own, mayStop);
    assert own[..|own| - 1] == Only(arrivals[..|arrivals| - 1], ids);
  }

  /** A run on all arrivals goes on with a step of one part of the sessions. */
  lemma CombinedStep(
    c: ServerConfig, states: seq<ManagerState>, arrivals: seq<Arrival>, a: Arrival, apart: ManagerState, mayStop: bool,
    ids: iset<uint32>) returns (next: ManagerState)
    requires QuietRun(c, states, arrivals) && Addresses(a, ids)
    requires Steps(c, Restrict(states[|arrivals|], ids), a, apart, mayStop)
    ensures Runs(c, states + [next], arrivals + [a], mayStop)
    ensures View(states + [next], arrivals + [a], ids) == View(states, arrivals, ids) + [apart]
    ensures View(states + [next], arrivals + [a], Others(ids)) == View(states, arrivals, Others(ids))
  {
    next := StepLifts(c, states[|arrivals|], a, apart, mayStop, ids);
    RunAfter(c, states, arrivals, a, next, mayStop);
    ViewAfter(states, arrivals, a, next, ids);
    ViewAfter(states, arrivals, a, next, Others(ids));
  }

  lemma OthersTwice(ids: iset<uint32>)
    ensures Others(Others(ids)) == ids
  {
  }

  /** A malformed datagram is nobody's and changes nothing. */
  lemma MalformedStep(c: ServerConfig, states: seq<ManagerState>, arrivals: seq<Arrival>, a: Arrival, mayStop: bool)
    requires QuietRun(c, states, arrivals) && ParsePacket(a.datagram).Failure?
    ensures Runs(c, states + [states[|arrivals|]], arrivals + [a], mayStop)
  {
    assert Receives(c, states[|arrivals|], a.datagram, a.now, states[|arrivals|], false);
    RunAfter(c, states, arrivals, a, states[|arrivals|], mayStop);
  }

  /** Conversely any run on the arrivals of some sessions and any run on those of all others are
      together a run on all the arrivals, in whatever order they are interleaved. */
  lemma {:induction false} RunsCombine(
    c: ServerConfig, mine: seq<ManagerState>, rest: seq<ManagerState>, arrivals: seq<Arrival>, mayStop: bool,
    ids: iset<uint32>) returns (states: seq<ManagerState>)
    requires Runs(c, mine, Only(arrivals, ids), mayStop && LastIn(arrivals, ids))
    requires Runs(c, rest, Only(arrivals, Others(ids)), mayStop && LastIn(arrivals, Others(ids)))
    ensures Runs(c, states, arrivals, mayStop)
    ensures View(states, arrivals, ids) == mine && View(states, arrivals, Others(ids)) == rest
    decreases |arrivals|
  {
    if arrivals == [] {
      states := [EMPTY];
      NothingApart(ids);
      NothingApart(Others(ids));
    } else {
      var n := |arrivals| - 1;
      var before, a := arrivals[..n], arrivals[n];
      assert arrivals == before + [a];
      if Addresses(a, ids) {
        OwnLast(c, mine, arrivals, mayStop, ids);
        states := RunsCombine(c, mine[..|mine| - 1], rest, before, false, ids);
        SessionRuns(c, states, before, false, ids);
        var next := CombinedStep(c, states, before, a, mine[|mine| - 1], mayStop, ids);
        states := states + [next];
      } else if Addresses(a, Others(ids)) {
        OwnLast(c, rest, arrivals, mayStop, Others(ids));
        states := RunsCombine(c, mine, rest[..|rest| - 1], before, false, ids);
        SessionRuns(c, states, before, false, Others(ids));
        OthersTwice(ids);
        var next := CombinedStep(c, states, before, a, rest[|rest| - 1], mayStop, Others(ids));
        states := states + [next];
      } else {
        states := RunsCombine(c, mine, rest, before, false, ids);
        MalformedStep(c, states, before, a, mayStop);
        ViewAfter(states, before, a, states[n], ids);
        ViewAfter(states, before, a, states[n], Others(ids));
        states := states + [states[n]];
      }
    }
  }
}
