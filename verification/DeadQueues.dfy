/** Queues that can never complete again. */
module DeadQueues {
  import opened Common
  import opened EnterpriseDiode
  import opened Reordering
  import opened DrainChains

  /** One queue through a sequence of writes, with their outcomes. */
  ghost predicate QueueRun(c: Config, states: seq<QueueState>, packets: seq<Packet>, outcomes: seq<Outcome>) {
    && |states| == |packets| + 1 == |outcomes| + 1
    && forall i | 0 <= i < |packets| :: WriteAt(c, states, packets, outcomes, i)
  }

  ghost predicate WriteAt(c: Config, states: seq<QueueState>, packets: seq<Packet>, outcomes: seq<Outcome>, i: nat)
    requires i < |packets| == |outcomes| && |states| == |packets| + 1
  {
    Writes(c, states[i], packets[i], states[i + 1], outcomes[i])
  }

  predicate Full(c: Config, s: QueueState) {
    |s.queue| >= c.maxQueueLength
  }

  /** A frame whose turn has passed is queued: a repeat that came too late. */
  predicate HoldsStale(s: QueueState) {
    exists p | p in s.queue :: FrameCount(p) < s.nextFrameCount
  }

  ghost predicate Dead(c: Config, s: QueueState) {
    !Ready(s) && (Full(c, s) || HoldsStale(s))
  }

  /** A drain that ends without completion or exception has nothing left to serve. */
  lemma {:induction false} IncompleteIsNotReady(c: Config, s: QueueState, t: QueueState, o: Outcome)
    requires Drains(c, s, t, o) && o == Incomplete
    ensures !Ready(t)
    decreases |s.queue|
  {
    if Ready(s) {
      var top := DrainTurn(c, s, t, o);
      match Served(c, s, top)
      case Advanced(next) => IncompleteIsNotReady(c, next, t, o);
      case _ =>
    } else {
      DrainStopped(c, s, t, o);
    }
  }

  /** The counter, the rewrapper and the stream are the same. */
  predicate SameOutput(s: QueueState, t: QueueState) {
    t.nextFrameCount == s.nextFrameCount && t.rewrapper == s.rewrapper && t.calls == s.calls
  }

  lemma DeadAbsorbs(c: Config, s: QueueState, p: Packet, t: QueueState, o: Outcome)
    requires Dead(c, s) && Writes(c, s, p, t, o)
    ensures Dead(c, t) && o == Incomplete
    ensures SameOutput(s, t)
  {
    var e := Enqueued(c, s, p);
    if e != s {
      var stale :| stale in s.queue && FrameCount(stale) < s.nextFrameCount;
      assert stale in e.queue;
    }
    DrainStopped(c, e, t, o);
  }

  lemma StepOf(c: Config, states: seq<QueueState>, packets: seq<Packet>, outcomes: seq<Outcome>, i: nat)
    requires QueueRun(c, states, packets, outcomes) && i < |packets|
    ensures Writes(c, states[i], packets[i], states[i + 1], outcomes[i])
  {
    assert WriteAt(c, states, packets, outcomes, i);
  }

  lemma DeadAfterWrite(c: Config, s: QueueState, p: Packet, t: QueueState, o: Outcome)
    requires Writes(c, s, p, t, o) && o == Incomplete && (Full(c, t) || HoldsStale(t))
    ensures Dead(c, t)
  {
    IncompleteIsNotReady(c, Enqueued(c, s, p), t, o);
  }

  lemma {:induction false} DeadStays(
    c: Config, states: seq<QueueState>, packets: seq<Packet>, outcomes: seq<Outcome>, i: nat, j: nat)
    requires QueueRun(c, states, packets, outcomes) && i <= j < |states| && Dead(c, states[i])
    ensures Dead(c, states[j]) && SameOutput(states[i], states[j])
    ensures i < j ==> outcomes[j - 1] == Incomplete
    decreases j
  {
    if i < j {
      var s, p, t, o := states[j - 1], packets[j - 1], states[j], outcomes[j - 1];
      DeadStays(c, states, packets, outcomes, i, j - 1);
      StepOf(c, states, packets, outcomes, j - 1);
      DeadAbsorbs(c, s, p, t, o);
    }
  }

  /** Once a write that did not complete leaves the queue full, or with a frame whose turn has
      passed, no later sequence of writes emits anything or completes. */
  lemma DeadForever(c: Config, states: seq<QueueState>, packets: seq<Packet>, outcomes: seq<Outcome>, i: nat)
    requires QueueRun(c, states, packets, outcomes) && i < |packets|
    requires outcomes[i] == Incomplete && (Full(c, states[i + 1]) || HoldsStale(states[i + 1]))
    ensures forall j | i < j < |states| :: SameOutput(states[i + 1], states[j])
    ensures forall j | i < j < |outcomes| :: outcomes[j] == Incomplete
  {
    StepOf(c, states, packets, outcomes, i);
    DeadAfterWrite(c, states[i], packets[i], states[i + 1], outcomes[i]);
    forall j | i < j < |states|
      ensures SameOutput(states[i + 1], states[j])
    {
      DeadStays(c, states, packets, outcomes, i + 1, j);
    }
    forall j | i < j < |outcomes|
      ensures outcomes[j] == Incomplete
    {
      DeadStays(c, states, packets, outcomes, i + 1, j + 1);
    }
  }

  /** An end-of-file frame that comes next; one byte is too short for a name, so the server
      rejects the name and completes. */
  function ClosingPacket(s: QueueState): Packet {
    Packet(HeaderParams(0, s.nextFrameCount, true, Zeros(48)), [0])
  }

  lemma ClosingCompletes(c: Config, s: QueueState) returns (t: QueueState)
    requires c.extractFilename([0]) == Extracted(None)
    requires !Full(c, s) && !HoldsStale(s)
    ensures Writes(c, s, ClosingPacket(s), t, Complete)
  {
    var p := ClosingPacket(s);
    var e := Enqueued(c, s, p);
    forall q | q in e.queue
      ensures s.nextFrameCount <= FrameCount(q)
    {
      assert q == p || q in s.queue;
    }
    assert StoredName(c, p.payload) == Success("rejected.");
    assert Chain(c, e, [], p, Complete);
    t := ChainDrains(c, e, [], p, Complete);
  }

  /** What is queued is enough to complete, if the next write gets past a frame that threw. */
  ghost predicate CanFinish(c: Config, s: QueueState) {
    exists ps, last :: Chain(c, s, ps, last, Complete)
  }

  /** In any state at all, also after a write that threw, some packet can make the next write
      complete the queue if and only if nothing stale is queued and the queue has room, or holds
      all it needs already. */
  lemma CompletesNextIff(c: Config, s: QueueState)
    requires c.extractFilename([0]) == Extracted(None)
    ensures (exists p, t :: Writes(c, s, p, t, Complete)) <==> !HoldsStale(s) && (!Full(c, s) || CanFinish(c, s))
  {
    if p, t :| Writes(c, s, p, t, Complete) {
      var ps, last := DrainIsChain(c, Enqueued(c, s, p), t, Complete);
      StaleStaysQueued(c, s, p);
    }
    if !HoldsStale(s) && !Full(c, s) {
      var t := ClosingCompletes(c, s);
    } else if !HoldsStale(s) && CanFinish(c, s) {
      var ps, last :| Chain(c, s, ps, last, Complete);
      var t := ChainDrains(c, s, ps, last, Complete);
      assert Writes(c, s, last, t, Complete);
    }
  }

  lemma StaleStaysQueued(c: Config, s: QueueState, p: Packet)
    ensures NothingStale(Enqueued(c, s, p)) ==> !HoldsStale(s)
  {
    if HoldsStale(s) {
      var q :| q in s.queue && FrameCount(q) < s.nextFrameCount;
      assert q in Enqueued(c, s, p).queue;
    }
  }

  /** Between writes that do not throw the first two conditions are exact: some packet can still
      complete the queue if and only if it is not dead. */
  lemma DeadIff(c: Config, s: QueueState)
    requires !Ready(s) && c.extractFilename([0]) == Extracted(None)
    ensures Dead(c, s) <==> !exists p, t :: Writes(c, s, p, t, Complete)
  {
    CompletesNextIff(c, s);
    if ps, last :| Chain(c, s, ps, last, Complete) {
      var t := ChainDrains(c, s, ps, last, Complete);
      DrainStopped(c, s, t, Complete);
    }
  }

  /** A frame at or below the next count is queued, and every frame with the next count fails. */
  ghost predicate Stuck(c: Config, s: QueueState) {
    && (exists p | p in s.queue :: FrameCount(p) <= s.nextFrameCount)
    && (forall p | p in s.queue && FrameCount(p) == s.nextFrameCount :: Served(c, s, p).Failed?)
  }

  lemma StuckAbsorbs(c: Config, s: QueueState, p: Packet, t: QueueState, o: Outcome)
    requires Stuck(c, s) && FrameCount(p) != s.nextFrameCount && Writes(c, s, p, t, o)
    ensures Stuck(c, t) && o != Complete && SameOutput(s, t)
  {
    var e := Enqueued(c, s, p);
    assert Stuck(c, e) by {
      var low :| low in s.queue && FrameCount(low) <= s.nextFrameCount;
      assert low in e.queue;
      forall q | q in e.queue && FrameCount(q) == e.nextFrameCount
        ensures Served(c, e, q).Failed?
      {
        assert q in s.queue && Served(c, s, q).Failed?;
      }
    }
    if Ready(e) {
      var top := DrainTurn(c, e, t, o);
    } else {
      DrainStopped(c, e, t, o);
    }
  }

  predicate DistinctCounts(packets: seq<Packet>) {
    forall i, j | 0 <= i < j < |packets| :: FrameCount(packets[i]) != FrameCount(packets[j])
  }

  /** A drain that throws stops at a failing top, and has taken nothing but popped frames away. */
  lemma {:induction false} ThrowsAtTop(c: Config, s: QueueState, t: QueueState, o: Outcome) returns (top: Packet)
    requires Drains(c, s, t, o) && o.Threw?
    ensures IsTop(t.queue, top) && FrameCount(top) == t.nextFrameCount && Served(c, t, top).Failed?
    decreases |s.queue|
  {
    if !Ready(s) {
      DrainStopped(c, s, t, o);
    }
    top := DrainTurn(c, s, t, o);
    match Served(c, s, top)
    case Advanced(next) => top := ThrowsAtTop(c, next, t, o);
    case _ =>
  }

  lemma ServedPops(c: Config, s: QueueState, top: Packet, p: Packet)
    requires top in s.queue
    ensures var turn := Served(c, s, top);
            && (turn.Advanced? && p in turn.next.queue ==> p in s.queue)
            && (turn.Finished? && p in turn.last.queue ==> p in s.queue)
  {
  }

  /** A drain takes frames away and adds none. */
  lemma {:induction false} DrainOnlyPops(c: Config, s: QueueState, t: QueueState, o: Outcome, p: Packet)
    requires Drains(c, s, t, o) && p in t.queue
    ensures p in s.queue
    decreases |s.queue|
  {
    if Ready(s) {
      var top := DrainTurn(c, s, t, o);
      ServedPops(c, s, top, p);
      if Served(c, s, top).Advanced? {
        DrainOnlyPops(c, Served(c, s, top).next, t, o, p);
      }
    } else {
      DrainStopped(c, s, t, o);
    }
  }

  /** What is queued has been written before. */
  lemma {:induction false} QueuedWasWritten(
    c: Config, states: seq<QueueState>, packets: seq<Packet>, outcomes: seq<Outcome>, i: nat, p: Packet)
    requires QueueRun(c, states, packets, outcomes) && i < |states| && states[0].queue == multiset{}
    requires p in states[i].queue
    ensures p in packets[..i]
  {
    if i > 0 {
      var e := Enqueued(c, states[i - 1], packets[i - 1]);
      StepOf(c, states, packets, outcomes, i - 1);
      DrainOnlyPops(c, e, states[i], outcomes[i - 1], p);
      if p in states[i - 1].queue {
        QueuedWasWritten(c, states, packets, outcomes, i - 1, p);
      }
      assert packets[..i] == packets[..i - 1] + [packets[i - 1]];
    }
  }

  /** A write that throws stops at a failing frame, one of those written before. */
  lemma ThrewAtWritten(
    c: Config, states: seq<QueueState>, packets: seq<Packet>, outcomes: seq<Outcome>, i: nat) returns (top: Packet)
    requires QueueRun(c, states, packets, outcomes) && states[0].queue == multiset{}
    requires i < |packets| && outcomes[i].Threw?
    ensures top in packets[..i + 1] && top in states[i + 1].queue
    ensures FrameCount(top) == states[i + 1].nextFrameCount && Served(c, states[i + 1], top).Failed?
  {
    StepOf(c, states, packets, outcomes, i);
    top := ThrowsAtTop(c, Enqueued(c, states[i], packets[i]), states[i + 1], outcomes[i]);
    QueuedWasWritten(c, states, packets, outcomes, i + 1, top);
  }

  /** With distinct frame counts a failing top is the only queued frame with its count. */
  lemma ThrewIsStuck(
    c: Config, states: seq<QueueState>, packets: seq<Packet>, outcomes: seq<Outcome>, i: nat) returns (top: Packet)
    requires QueueRun(c, states, packets, outcomes) && states[0].queue == multiset{} && DistinctCounts(packets)
    requires i < |packets| && outcomes[i].Threw?
    ensures Stuck(c, states[i + 1]) && top in packets[..i + 1] && FrameCount(top) == states[i + 1].nextFrameCount
  {
    top := ThrewAtWritten(c, states, packets, outcomes, i);
    forall q | q in states[i + 1].queue && FrameCount(q) == FrameCount(top)
      ensures q == top
    {
      QueuedWasWritten(c, states, packets, outcomes, i + 1, q);
      SamePacket(packets, q, top);
    }
  }

  lemma SamePacket(packets: seq<Packet>, p: Packet, q: Packet)
    requires DistinctCounts(packets) && p in packets && q in packets && FrameCount(p) == FrameCount(q)
    ensures p == q
  {
    var k :| 0 <= k < |packets| && packets[k] == p;
    var l :| 0 <= l < |packets| && packets[l] == q;
    assert !(k < l) && !(l < k);
  }

  lemma {:induction false} StuckStays(
    c: Config, states: seq<QueueState>, packets: seq<Packet>, outcomes: seq<Outcome>, i: nat, j: nat)
    requires QueueRun(c, states, packets, outcomes) && i <= j < |states| && Stuck(c, states[i])
    requires forall k | i <= k < j :: FrameCount(packets[k]) != states[i].nextFrameCount
    ensures Stuck(c, states[j]) && SameOutput(states[i], states[j])
    ensures i < j ==> outcomes[j - 1] != Complete
    decreases j
  {
    if i < j {
      var s, p, t, o := states[j - 1], packets[j - 1], states[j], outcomes[j - 1];
      StuckStays(c, states, packets, outcomes, i, j - 1);
      StepOf(c, states, packets, outcomes, j - 1);
      assert FrameCount(p) != s.nextFrameCount;
      StuckAbsorbs(c, s, p, t, o);
    }
  }

  /** A failed frame stays failed: with distinct frame counts, after a write that threw neither
      the counter nor the rewrapper nor the stream ever changes again, and nothing completes. */
  lemma FailedForever(
    c: Config, states: seq<QueueState>, packets: seq<Packet>, outcomes: seq<Outcome>, i: nat, j: nat)
    requires QueueRun(c, states, packets, outcomes) && states[0].queue == multiset{} && DistinctCounts(packets)
    requires i < j < |states| && outcomes[i].Threw?
    ensures SameOutput(states[i + 1], states[j]) && outcomes[j - 1] != Complete
  {
    var top := ThrewIsStuck(c, states, packets, outcomes, i);
    var l :| 0 <= l <= i && packets[l] == top;
    forall k | i < k < j
      ensures FrameCount(packets[k]) != states[i + 1].nextFrameCount
    {
      assert FrameCount(packets[l]) != FrameCount(packets[k]);
    }
    StuckStays(c, states, packets, outcomes, i + 1, j);
  }
}
