/** The bounded reorder queue of one session (src/server/ReorderPackets.cpp). */
module Reordering {
  import opened Common
  import opened EnterpriseDiode
  import opened Rewrapping
  import opened Streams

  datatype DiodeType = Import | Basic

  /** The queue length, the kind of diode, and the SISLFilename object's extractFilename. */
  datatype Config = Config(
    maxQueueLength: uint32, diodeType: DiodeType, extractFilename: BytesBuffer -> Extraction)

  /** The queue, the counter, the rewrapper, and the stream that is written to. */
  datatype QueueState = QueueState(
    queue: multiset<Packet>, nextFrameCount: uint32, rewrapper: RewrapState, calls: seq<Call>)

  const INITIAL_QUEUE: QueueState := QueueState(multiset{}, 1, INITIAL, [])

  /** write returns false or true, or an exception leaves it. */
  datatype Outcome = Incomplete | Complete | Threw(error: Failure)

  function FrameCount(p: Packet): uint32 {
    p.headerParams.frameCount
  }

  /** What a min-queue may report as its top. The order of equal frame counts is unspecified, so
      any packet of the least frame count will do. */
  predicate IsTop(queue: multiset<Packet>, top: Packet) {
    top in queue && forall p | p in queue :: FrameCount(top) <= FrameCount(p)
  }

  /** The loop condition: the top, whichever it is, carries the next frame count. */
  ghost predicate Ready(s: QueueState) {
    exists top {:trigger IsTop(s.queue, top)} :: IsTop(s.queue, top) && FrameCount(top) == s.nextFrameCount
  }

  /** The bytes writeFrame sends to the stream for a data frame. */
  function FrameOutput(diodeType: DiodeType, rewrapper: RewrapState, p: Packet, nextFrameCount: uint32)
    : Result<(RewrapState, BytesBuffer)>
  {
    if diodeType.Import? then Rewrapped(rewrapper, p.payload, p.headerParams.cloakedDaggerHeader, nextFrameCount)
    else Success((rewrapper, p.payload))
  }

  /** The name handed to the stream for an end-of-file frame. */
  function StoredName(c: Config, eofFrame: BytesBuffer): Result<string> {
    match c.extractFilename(eofFrame)
    case Raised => Failure(OtherError)
    case Extracted(Some(name)) => Success(name)
    case Extracted(None) => Success("rejected.")
  }

  /** One turn of the drain loop on a given top: on, out with true, or out with an exception. */
  datatype Turn = Advanced(next: QueueState) | Finished(last: QueueState) | Failed(error: Failure)

  function Served(c: Config, s: QueueState, top: Packet): (t: Turn)
    requires top in s.queue
    ensures t.Advanced? ==> |t.next.queue| < |s.queue|
  {
    var popped := s.queue - multiset{top};
    if top.headerParams.eOFFlag then
      match StoredName(c, top.payload)
      case Failure(e) => Failed(e)
      case Success(name) => Finished(s.(queue := popped, calls := s.calls + [SetStoredFilename(name)]))
    else
      match FrameOutput(c.diodeType, s.rewrapper, top, s.nextFrameCount)
      case Failure(e) => Failed(e)
      case Success((rewrapper, output)) =>
        Advanced(QueueState(popped, Increment32(s.nextFrameCount), rewrapper, s.calls + [Write(output)]))
  }

  /** The loop body on some top that carries the next frame count. */
  ghost predicate Takes(c: Config, s: QueueState, turn: Turn) {
    exists top {:trigger IsTop(s.queue, top)} ::
      IsTop(s.queue, top) && FrameCount(top) == s.nextFrameCount && Served(c, s, top) == turn
  }

  /** How the loop ends in state s. A turn that throws leaves the state as it was. */
  ghost predicate Ends(c: Config, s: QueueState, t: QueueState, o: Outcome) {
    match o
    case Incomplete => !Ready(s) && t == s
    case Complete => Takes(c, s, Finished(t))
    case Threw(e) => Takes(c, s, Failed(e)) && t == s
  }

  /** What happens in the i-th state of the loop: one more turn, or in the last one the end. */
  ghost predicate PassAt(c: Config, trace: seq<QueueState>, i: nat, t: QueueState, o: Outcome)
    requires i < |trace|
  {
    if i + 1 < |trace| then Takes(c, trace[i], Advanced(trace[i + 1])) else Ends(c, trace[i], t, o)
  }

  ghost predicate DrainTrace(c: Config, trace: seq<QueueState>, s: QueueState, t: QueueState, o: Outcome) {
    && |trace| > 0 && trace[0] == s
    && forall i {:trigger PassAt(c, trace, i, t, o)} | 0 <= i < |trace| :: PassAt(c, trace, i, t, o)
  }

  /** checkQueueAndWrite, for every order of ties: from state s it can end in state t with
      outcome o. */
  ghost predicate Drains(c: Config, s: QueueState, t: QueueState, o: Outcome) {
    exists trace: seq<QueueState> :: DrainTrace(c, trace, s, t, o)
  }

  /** addFrameToQueue: a full queue drops the frame. */
  function Enqueued(c: Config, s: QueueState, p: Packet): QueueState {
    if |s.queue| >= c.maxQueueLength then s else s.(queue := s.queue + multiset{p})
  }

  ghost predicate Writes(c: Config, s: QueueState, p: Packet, t: QueueState, o: Outcome) {
    Drains(c, Enqueued(c, s, p), t, o)
  }

  lemma TopExists(queue: multiset<Packet>)
    requires queue != multiset{}
    ensures exists top :: IsTop(queue, top)
    decreases |queue|
  {
    var p :| p in queue;
    var rest := queue - multiset{p};
    assert queue == rest + multiset{p};
    if rest == multiset{} {
      assert IsTop(queue, p);
    } else {
      TopExists(rest);
      var top :| IsTop(rest, top);
      assert IsTop(queue, if FrameCount(p) < FrameCount(top) then p else top);
    }
  }

  /** The loop stops at once where it is not ready, and only there. */
  lemma DrainStops(c: Config, s: QueueState)
    requires !Ready(s)
    ensures Drains(c, s, s, Incomplete)
  {
    assert DrainTrace(c, [s], s, s, Incomplete);
  }

  lemma DrainStopped(c: Config, s: QueueState, t: QueueState, o: Outcome)
    requires Drains(c, s, t, o) && !Ready(s)
    ensures t == s && o == Incomplete
  {
    var trace :| DrainTrace(c, trace, s, t, o);
    assert PassAt(c, trace, 0, t, o);
  }

  /** One turn of the loop, and what may follow it. */
  lemma TurnDrains(c: Config, s: QueueState, top: Packet)
    requires IsTop(s.queue, top) && FrameCount(top) == s.nextFrameCount
    ensures var turn := Served(c, s, top);
            && (turn.Advanced? ==> forall t, o | Drains(c, turn.next, t, o) :: Drains(c, s, t, o))
            && (turn.Finished? ==> Drains(c, s, turn.last, Complete))
            && (turn.Failed? ==> Drains(c, s, s, Threw(turn.error)))
  {
    assert Takes(c, s, Served(c, s, top));
    match Served(c, s, top)
    case Advanced(next) =>
      forall t, o | Drains(c, next, t, o)
        ensures Drains(c, s, t, o)
      {
        TurnPrepended(c, s, next, t, o);
      }
    case Finished(last) => assert DrainTrace(c, [s], s, last, Complete);
    case Failed(e) => assert DrainTrace(c, [s], s, s, Threw(e));
  }

  lemma TurnPrepended(c: Config, s: QueueState, next: QueueState, t: QueueState, o: Outcome)
    requires Takes(c, s, Advanced(next)) && Drains(c, next, t, o)
    ensures Drains(c, s, t, o)
  {
    var trace :| DrainTrace(c, trace, next, t, o);
    var longer := [s] + trace;
    forall i | 0 <= i < |longer|
      ensures PassAt(c, longer, i, t, o)
    {
      if i > 0 {
        assert PassAt(c, trace, i - 1, t, o);
      }
    }
    assert DrainTrace(c, longer, s, t, o);
  }

  /** A drain where the loop is ready serves some top, which carries the next frame count, and
      goes on from there. */
  lemma DrainTurn(c: Config, s: QueueState, t: QueueState, o: Outcome) returns (top: Packet)
    requires Drains(c, s, t, o) && Ready(s)
    ensures IsTop(s.queue, top) && FrameCount(top) == s.nextFrameCount
    ensures match Served(c, s, top)
            case Advanced(next) => Drains(c, next, t, o)
            case Finished(last) => t == last && o == Complete
            case Failed(e) => t == s && o == Threw(e)
  {
    var trace :| DrainTrace(c, trace, s, t, o);
    assert PassAt(c, trace, 0, t, o);
    var turn: Turn;
    if |trace| > 1 {
      turn := Advanced(trace[1]);
      forall i | 0 <= i < |trace[1..]|
        ensures PassAt(c, trace[1..], i, t, o)
      {
        assert PassAt(c, trace, i + 1, t, o);
      }
      assert DrainTrace(c, trace[1..], trace[1], t, o);
    } else if o == Complete {
      turn := Finished(t);
    } else {
      turn := Failed(o.error);
    }
    assert Takes(c, s, turn);
    top :| IsTop(s.queue, top) && FrameCount(top) == s.nextFrameCount && Served(c, s, top) == turn;
  }

  /** Every drain ends in some way. */
  lemma {:induction false} DrainExists(c: Config, s: QueueState) returns (t: QueueState, o: Outcome)
    ensures Drains(c, s, t, o)
    decreases |s.queue|
  {
    if Ready(s) {
      var top :| IsTop(s.queue, top) && FrameCount(top) == s.nextFrameCount;
      TurnDrains(c, s, top);
      match Served(c, s, top)
      case Advanced(next) => t, o := DrainExists(c, next);
      case Finished(last) => t, o := last, Complete;
      case Failed(e) => t, o := s, Threw(e);
    } else {
      DrainStops(c, s);
      t, o := s, Incomplete;
    }
  }

  class ReorderPackets {
    const config: Config
    const streamingRewrapper: StreamingRewrapper
    var queue: multiset<Packet>
    var nextFrameCount: uint32

    ghost function State(stream: Stream): QueueState
      reads this, streamingRewrapper, stream
    {
      QueueState(queue, nextFrameCount, streamingRewrapper.State(), stream.calls)
    }

    constructor (config: Config)
      ensures this.config == config
      ensures fresh(streamingRewrapper)
      ensures queue == multiset{} && nextFrameCount == 1 && streamingRewrapper.State() == INITIAL
    {
      this.config := config;
      streamingRewrapper := new StreamingRewrapper();
      queue, nextFrameCount := multiset{}, 1;
    }

    method Write(packet: Packet, stream: Stream) returns (o: Outcome)
      modifies this, streamingRewrapper, stream
      ensures Writes(config, old(State(stream)), packet, State(stream), o)
    {
      AddFrameToQueue(packet);
      o := CheckQueueAndWrite(stream);
    }

    method AddFrameToQueue(packet: Packet)
      modifies this
      ensures queue == if |old(queue)| >= config.maxQueueLength then old(queue) else old(queue) + multiset{packet}
      ensures nextFrameCount == old(nextFrameCount)
    {
      if |queue| < config.maxQueueLength {
        queue := queue + multiset{packet};
      }
    }

    method Top() returns (top: Packet)
      requires queue != multiset{}
      ensures IsTop(queue, top)
    {
      TopExists(queue);
      top :| top in queue && forall p | p in queue :: FrameCount(top) <= FrameCount(p);
    }

    method CheckQueueAndWrite(stream: Stream) returns (o: Outcome)
      modifies this, streamingRewrapper, stream
      ensures Drains(config, old(State(stream)), State(stream), o)
    {
      ghost var start, now := State(stream), State(stream);
      while queue != multiset{}
        invariant now == State(stream)
        invariant forall t, r :: Drains(config, now, t, r) ==> Drains(config, start, t, r)
        decreases |queue|
      {
        var top := Top();
        if FrameCount(top) != nextFrameCount {
          DrainStops(config, now);
          return Incomplete;
        }
        TurnDrains(config, now, top);
        var ended := ServeTop(top, stream);
        if ended.Some? {
          return ended.value;
        }
        now := State(stream);
      }
      DrainStops(config, now);
      return Incomplete;
    }

    /** The body of the drain loop: an outcome ends the loop. */
    method ServeTop(top: Packet, stream: Stream) returns (ended: Option<Outcome>)
      requires top in queue
      modifies this, streamingRewrapper, stream
      ensures match Served(config, old(State(stream)), top)
              case Advanced(next) => ended == None && State(stream) == next
              case Finished(last) => ended == Some(Complete) && State(stream) == last
              case Failed(e) => ended == Some(Threw(e)) && State(stream) == old(State(stream))
    {
      if top.headerParams.eOFFlag {
        var name := StoredName(config, top.payload);
        if name.Failure? {
          return Some(Threw(name.error));
        }
        stream.SetStoredFilename(name.value);
        queue := queue - multiset{top};
        return Some(Complete);
      }
      var written := WriteFrame(top, stream);
      if written.Failure? {
        return Some(Threw(written.error));
      }
      queue := queue - multiset{top};
      nextFrameCount := Increment32(nextFrameCount);
      return None;
    }

    method WriteFrame(top: Packet, stream: Stream) returns (r: Result<()>)
      modifies streamingRewrapper, stream
      ensures match FrameOutput(config.diodeType, old(streamingRewrapper.State()), top, nextFrameCount)
              case Success((rewrapper, output)) =>
                && r == Success(()) && streamingRewrapper.State() == rewrapper
                && stream.calls == old(stream.calls) + [Call.Write(output)]
              case Failure(e) =>
                && r == Failure(e) && streamingRewrapper.State() == old(streamingRewrapper.State())
                && stream.calls == old(stream.calls)
    {
      if config.diodeType.Import? {
        var output := streamingRewrapper.Rewrap(top.payload, top.headerParams.cloakedDaggerHeader, nextFrameCount);
        if output.Failure? {
          return Failure(output.error);
        }
        stream.Write(output.value);
      } else {
        stream.Write(top.payload);
      }
      return Success(());
    }
  }
}
