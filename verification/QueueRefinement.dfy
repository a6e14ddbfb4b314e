/** The reorder queue refines a simple specification: a set of accepted frames, of which the
    longest run from 1 has been written. */
module QueueRefinement {
  import opened Common
  import opened EnterpriseDiode
  import opened Streams
  import opened Reordering
  import opened Transfers
  import opened DeadQueues

  /** The accepted frames by frame count. */
  type Accepted = map<nat, Packet>

  predicate IsEof(p: Packet) {
    p.headerParams.eOFFlag
  }

  /** Frames 1 to r have been accepted and are data frames. */
  predicate DataRun(a: Accepted, r: nat) {
    forall k | 1 <= k <= r :: k in a && !IsEof(a[k])
  }

  /** r is the length of the longest contiguous run of accepted data frames from 1. */
  predicate LongestRun(a: Accepted, r: nat) {
    DataRun(a, r) && !(r + 1 in a && !IsEof(a[r + 1]))
  }

  /** The run is complete: the frame after it is an accepted end of file. */
  predicate RunComplete(a: Accepted, r: nat) {
    DataRun(a, r) && r + 1 in a && IsEof(a[r + 1])
  }

  function RunFrames(a: Accepted, r: nat): seq<Packet>
    requires DataRun(a, r)
  {
    seq(r, i requires 0 <= i < r => a[i + 1])
  }

  predicate Keyed(a: Accepted) {
    forall k | k in a :: 1 <= k && FrameCount(a[k]) == k
  }

  predicate Waiting(a: Accepted, r: nat, p: Packet) {
    r < FrameCount(p) && FrameCount(p) in a && a[FrameCount(p)] == p
  }

  function CountAfter(r: nat): uint32
    requires r < TWO_32
  {
    if r + 1 == TWO_32 then 0 else r + 1
  }

  /** The queue state shows that of the accepted frames the first r have been written, in order,
      and every other one is queued, once. */
  ghost predicate Reflects(c: Config, s: QueueState, a: Accepted, r: nat) {
    && r < TWO_32 && s.nextFrameCount == CountAfter(r)
    && Keyed(a) && DataRun(a, r)
    && (forall p :: s.queue[p] == if Waiting(a, r, p) then 1 else 0)
    && |s.queue| + r == |a|
    && OnlyWrites(s.calls)
    && Emitted(c.diodeType, RunFrames(a, r)) == Success((s.rewrapper, Content(s.calls)))
  }

  lemma InitiallyReflects(c: Config)
    ensures Reflects(c, INITIAL_QUEUE, map[], 0)
  {
  }

  /** Accepting a frame with a new count. */
  lemma AcceptReflects(c: Config, s: QueueState, a: Accepted, r: nat, p: Packet)
    requires Reflects(c, s, a, r) && !Full(c, s) && 1 <= FrameCount(p) && FrameCount(p) !in a
    ensures Reflects(c, Enqueued(c, s, p), a[FrameCount(p) := p], r)
  {
    var e, b := Enqueued(c, s, p), a[FrameCount(p) := p];
    assert r < FrameCount(p);
    forall q
      ensures e.queue[q] == if Waiting(b, r, q) then 1 else 0
    {
      assert s.queue[q] == if Waiting(a, r, q) then 1 else 0;
    }
    assert RunFrames(b, r) == RunFrames(a, r);
  }

  /** The queue is ready exactly when the frame after the run has been accepted, and then that
      frame is the only possible top. */
  lemma TopIsNext(c: Config, s: QueueState, a: Accepted, r: nat)
    requires Reflects(c, s, a, r)
    ensures Ready(s) <==> r + 1 in a
    ensures forall top {:trigger IsTop(s.queue, top)} | IsTop(s.queue, top) && FrameCount(top) == s.nextFrameCount ::
      r + 1 in a && top == a[r + 1]
  {
    forall top | top in s.queue && FrameCount(top) == s.nextFrameCount
      ensures r + 1 in a && top == a[r + 1]
    {
      assert Waiting(a, r, top);
    }
    if r + 1 in a {
      var next := a[r + 1];
      assert Waiting(a, r, next);
      forall q | q in s.queue
        ensures FrameCount(next) <= FrameCount(q)
      {
        assert Waiting(a, r, q);
      }
      assert IsTop(s.queue, next);
    }
  }

  lemma RunFramesStep(a: Accepted, r: nat)
    requires DataRun(a, r + 1)
    ensures var all := RunFrames(a, r + 1);
            all[..r] == RunFrames(a, r) && all[..r + 1] == all && all[r] == a[r + 1]
  {
  }

  lemma ServeReflects(c: Config, s: QueueState, a: Accepted, r: nat)
    requires Reflects(c, s, a, r) && r + 1 in a && a[r + 1] in s.queue
    requires Served(c, s, a[r + 1]).Advanced?
    ensures Reflects(c, Served(c, s, a[r + 1]).next, a, r + 1)
  {
    var p, next := a[r + 1], Served(c, s, a[r + 1]).next;
    forall q
      ensures next.queue[q] == if Waiting(a, r + 1, q) then 1 else 0
    {
      assert s.queue[q] == if Waiting(a, r, q) then 1 else 0;
    }
    RunFramesStep(a, r);
    EmittedStep(c.diodeType, RunFrames(a, r + 1), r);
    var output := FrameOutput(c.diodeType, s.rewrapper, p, s.nextFrameCount).value.1;
    ContentAppend(s.calls, Write(output));
  }

  /** What a drain ends with. */
  ghost predicate DrainEnds(c: Config, t: QueueState, a: Accepted, r: nat, o: Outcome) {
    match o
    case Incomplete => Reflects(c, t, a, r) && r + 1 !in a
    case Complete => r < TWO_32 && RunComplete(a, r) && NamedAfter(c, t.calls, a, r)
    case Threw(e) => Reflects(c, t, a, r) && r + 1 in a && a[r + 1] in t.queue && Served(c, t, a[r + 1]) == Failed(e)
  }

  /** The stream holds the output of the run and then got the name in the end-of-file frame. */
  ghost predicate NamedAfter(c: Config, calls: seq<Call>, a: Accepted, r: nat)
    requires RunComplete(a, r) && r < TWO_32
  {
    && |calls| > 0 && OnlyWrites(calls[..|calls| - 1])
    && calls[|calls| - 1].SetStoredFilename?
    && StoredName(c, a[r + 1].payload) == Success(calls[|calls| - 1].name)
    && Emitted(c.diodeType, RunFrames(a, r)).Success?
    && Emitted(c.diodeType, RunFrames(a, r)).value.1 == Content(calls[..|calls| - 1])
  }

  lemma FinishNames(c: Config, s: QueueState, a: Accepted, r: nat)
    requires Reflects(c, s, a, r) && r + 1 in a && a[r + 1] in s.queue
    requires Served(c, s, a[r + 1]).Finished?
    ensures RunComplete(a, r) && NamedAfter(c, Served(c, s, a[r + 1]).last.calls, a, r)
  {
    var calls := Served(c, s, a[r + 1]).last.calls;
    assert calls[..|calls| - 1] == s.calls;
  }

  lemma {:induction false} DrainReflects(c: Config, s: QueueState, a: Accepted, r: nat, t: QueueState, o: Outcome)
    returns (last: nat)
    requires Reflects(c, s, a, r) && Drains(c, s, t, o)
    ensures DrainEnds(c, t, a, last, o)
    decreases |s.queue|
  {
    last := r;
    TopIsNext(c, s, a, r);
    if Ready(s) {
      var top := DrainTurn(c, s, t, o);
      assert top == a[r + 1];
      match Served(c, s, top)
      case Advanced(next) =>
        ServeReflects(c, s, a, r);
        last := DrainReflects(c, next, a, r + 1, t, o);
      case Finished(_) =>
        FinishNames(c, s, a, r);
      case Failed(_) =>
    } else {
      DrainStopped(c, s, t, o);
    }
  }

  /** The frames accepted from the first i packets: those that did not meet a full queue. */
  ghost function AcceptedFrom(c: Config, states: seq<QueueState>, packets: seq<Packet>, i: nat): Accepted
    requires i <= |packets| < |states|
  {
    if i == 0 then map[]
    else
      var before := AcceptedFrom(c, states, packets, i - 1);
      if Full(c, states[i - 1]) then before else before[FrameCount(packets[i - 1]) := packets[i - 1]]
  }

  lemma {:induction false} AcceptedWasSent(c: Config, states: seq<QueueState>, packets: seq<Packet>, i: nat, k: nat)
    requires i <= |packets| < |states| && k in AcceptedFrom(c, states, packets, i)
    ensures exists j | 0 <= j < i :: FrameCount(packets[j]) == k
  {
    if k in AcceptedFrom(c, states, packets, i - 1) {
      AcceptedWasSent(c, states, packets, i - 1, k);
    } else {
      assert FrameCount(packets[i - 1]) == k;
    }
  }

  /** One write, before anything completed or threw. */
  lemma WriteReflects(
    c: Config, states: seq<QueueState>, packets: seq<Packet>, outcomes: seq<Outcome>, i: nat, r: nat)
    returns (last: nat)
    requires QueueRun(c, states, packets, outcomes) && DistinctCounts(packets) && i < |packets|
    requires forall p | p in packets :: 1 <= FrameCount(p)
    requires Reflects(c, states[i], AcceptedFrom(c, states, packets, i), r)
    ensures DrainEnds(c, states[i + 1], AcceptedFrom(c, states, packets, i + 1), last, outcomes[i])
  {
    var a, p := AcceptedFrom(c, states, packets, i), packets[i];
    StepOf(c, states, packets, outcomes, i);
    if Full(c, states[i]) {
      last := DrainReflects(c, states[i], a, r, states[i + 1], outcomes[i]);
    } else {
      if FrameCount(p) in a {
        AcceptedWasSent(c, states, packets, i, FrameCount(p));
        assert false;
      }
      AcceptReflects(c, states[i], a, r, p);
      last := DrainReflects(c, Enqueued(c, states[i], p), a[FrameCount(p) := p], r, states[i + 1], outcomes[i]);
    }
  }

  lemma IncompleteIsLongest(c: Config, t: QueueState, a: Accepted, r: nat)
    requires DrainEnds(c, t, a, r, Incomplete)
    ensures Reflects(c, t, a, r) && LongestRun(a, r)
  {
  }

  /** The queue refines its specification. Over any writes of frames with distinct counts from 1
      on, as long as none has completed or thrown: what was accepted is what was written and what
      is queued; what was written is the longest run of accepted data frames, in order. */
  lemma {:induction false} QueueRefines(
    c: Config, states: seq<QueueState>, packets: seq<Packet>, outcomes: seq<Outcome>, i: nat) returns (r: nat)
    requires QueueRun(c, states, packets, outcomes) && states[0] == INITIAL_QUEUE && DistinctCounts(packets)
    requires forall p | p in packets :: 1 <= FrameCount(p)
    requires i <= |packets| && forall k | 0 <= k < i :: outcomes[k] == Incomplete
    ensures Reflects(c, states[i], AcceptedFrom(c, states, packets, i), r)
    ensures LongestRun(AcceptedFrom(c, states, packets, i), r)
  {
    if i == 0 {
      r := 0;
      InitiallyReflects(c);
    } else {
      r := QueueRefines(c, states, packets, outcomes, i - 1);
      r := WriteReflects(c, states, packets, outcomes, i - 1, r);
      IncompleteIsLongest(c, states[i], AcceptedFrom(c, states, packets, i), r);
    }
  }

  lemma RunUnique(a: Accepted, r: nat, s: nat)
    requires LongestRun(a, r) && LongestRun(a, s)
    ensures r == s
  {
    assert !(r < s) && !(s < r);
  }

  /** ... and the first write that does not return false or throw returns true exactly when the
      end-of-file frame directly after the longest run has been accepted. */
  lemma CompletesExactly(
    c: Config, states: seq<QueueState>, packets: seq<Packet>, outcomes: seq<Outcome>, i: nat, r: nat)
    requires QueueRun(c, states, packets, outcomes) && states[0] == INITIAL_QUEUE && DistinctCounts(packets)
    requires forall p | p in packets :: 1 <= FrameCount(p)
    requires i < |packets| && forall k | 0 <= k < i :: outcomes[k] == Incomplete
    requires !outcomes[i].Threw? && LongestRun(AcceptedFrom(c, states, packets, i + 1), r)
    ensures outcomes[i] == Complete <==> RunComplete(AcceptedFrom(c, states, packets, i + 1), r)
    ensures outcomes[i] == Complete
            ==> r < TWO_32 && NamedAfter(c, states[i + 1].calls, AcceptedFrom(c, states, packets, i + 1), r)
  {
    var before := QueueRefines(c, states, packets, outcomes, i);
    var last := WriteReflects(c, states, packets, outcomes, i, before);
    RunUnique(AcceptedFrom(c, states, packets, i + 1), r, last);
  }
}
