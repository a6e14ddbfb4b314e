/** What a queue that is fed frames of one transfer still needs to complete, and when it cannot any
    more. */
module Completion {
  import opened Common
  import opened EnterpriseDiode
  import opened Streams
  import opened Reordering
  import opened Transfers
  import opened DeadQueues

  /** A numbered transfer of which no frame makes the queue throw. */
  ghost predicate Acceptable(c: Config, fs: seq<Packet>) {
    && Numbered(fs)
    && Emitted(c.diodeType, fs[..|fs| - 1]).Success?
    && StoredName(c, fs[|fs| - 1].payload).Success?
  }

  /** Only an acceptable transfer can ever be whole and named. */
  lemma WholeIsAcceptable(c: Config, fs: seq<Packet>, calls: seq<Call>)
    requires Numbered(fs) && WholeAndNamed(c, fs, calls)
    ensures Acceptable(c, fs)
  {
  }

  /** A data frame is queued that blocks the queue before its end: its turn has passed, or it is
      queued again and will block it then. */
  predicate Blocks(fs: seq<Packet>, s: QueueState, p: Packet) {
    p in s.queue && FrameCount(p) < |fs| && (FrameCount(p) < s.nextFrameCount || s.queue[p] >= 2)
  }

  ghost predicate Doomed(fs: seq<Packet>, s: QueueState) {
    exists p :: Blocks(fs, s, p)
  }

  /** Frame k has been written or is queued. */
  predicate Has(fs: seq<Packet>, s: QueueState, k: nat)
    requires 1 <= k <= |fs|
  {
    k < s.nextFrameCount || fs[k - 1] in s.queue
  }

  /** The queue lacks the frame it waits for and nothing blocks it. */
  ghost predicate Sound(c: Config, fs: seq<Packet>, s: QueueState)
    requires |fs| < TWO_32
  {
    Safe(c, fs, s) && !Doomed(fs, s)
  }

  lemma SameCount(c: Config, fs: seq<Packet>, s: QueueState, top: Packet)
    requires Numbered(fs) && Safe(c, fs, s) && top in s.queue && FrameCount(top) == s.nextFrameCount
    ensures top == fs[s.nextFrameCount - 1] && (top.headerParams.eOFFlag <==> s.nextFrameCount == |fs|)
  {
    assert Genuine(fs, top);
  }

  /** The queue is ready if and only if nothing stale is queued and it has the frame it waits for. */
  lemma ReadyIff(c: Config, fs: seq<Packet>, s: QueueState)
    requires Numbered(fs) && Sound(c, fs, s)
    ensures Ready(s) <==> Has(fs, s, s.nextFrameCount)
  {
    var next := fs[s.nextFrameCount - 1];
    if next in s.queue {
      forall p | p in s.queue
        ensures FrameCount(next) <= FrameCount(p)
      {
        assert Genuine(fs, p) && !Blocks(fs, s, p);
      }
      assert IsTop(s.queue, next);
    }
    if Ready(s) {
      var top :| IsTop(s.queue, top) && FrameCount(top) == s.nextFrameCount;
      SameCount(c, fs, s, top);
    }
  }

  /** The frame whose turn it is has been popped and counted. */
  ghost predicate Popped(fs: seq<Packet>, s: QueueState, next: QueueState)
    requires 1 <= s.nextFrameCount <= |fs|
  {
    var top := fs[s.nextFrameCount - 1];
    && top in s.queue && FrameCount(top) == s.nextFrameCount < |fs|
    && next.queue == s.queue - multiset{top} && next.nextFrameCount == s.nextFrameCount + 1
  }

  lemma PoppedNotDoomed(fs: seq<Packet>, s: QueueState, next: QueueState)
    requires 1 <= s.nextFrameCount <= |fs| && Popped(fs, s, next) && !Doomed(fs, s)
    requires forall p | p in s.queue :: Genuine(fs, p)
    ensures !Doomed(fs, next)
  {
    var top := fs[s.nextFrameCount - 1];
    assert !Blocks(fs, s, top);
    forall p
      ensures !Blocks(fs, next, p)
    {
      assert !Blocks(fs, s, p);
    }
  }

  lemma PoppedHas(fs: seq<Packet>, s: QueueState, next: QueueState, k: nat)
    requires Numbered(fs) && 1 <= s.nextFrameCount <= |fs| && Popped(fs, s, next) && 1 <= k <= |fs|
    ensures Has(fs, next, k) == Has(fs, s, k)
  {
  }

  lemma AdvanceKeepsSound(c: Config, fs: seq<Packet>, s: QueueState, top: Packet)
    requires Numbered(fs) && Sound(c, fs, s) && top in s.queue && FrameCount(top) == s.nextFrameCount
    requires Served(c, s, top).Advanced?
    ensures var next := Served(c, s, top).next;
            && Sound(c, fs, next) && next.nextFrameCount == s.nextFrameCount + 1
            && |next.queue| + next.nextFrameCount == |s.queue| + s.nextFrameCount
            && forall k | 1 <= k <= |fs| :: Has(fs, next, k) == Has(fs, s, k)
  {
    var next := Served(c, s, top).next;
    SameCount(c, fs, s, top);
    AdvanceKeepsSafe(c, fs, s, top);
    PoppedNotDoomed(fs, s, next);
    forall k | 1 <= k <= |fs|
      ensures Has(fs, next, k) == Has(fs, s, k)
    {
      PoppedHas(fs, s, next, k);
    }
  }

  /** A drain of a sound queue: it completes with every frame there, and otherwise stops, or
      throws, with nothing lost. */
  lemma {:induction false} SoundDrain(c: Config, fs: seq<Packet>, s: QueueState, t: QueueState, o: Outcome)
    requires Acceptable(c, fs) && Sound(c, fs, s) && Drains(c, s, t, o)
    ensures !o.Threw?
    ensures o == Complete ==> forall k | 1 <= k <= |fs| :: Has(fs, s, k)
    ensures o == Incomplete ==> SoundEnd(c, fs, s, t)
    decreases |s.queue|
  {
    ReadyIff(c, fs, s);
    if Ready(s) {
      var top := DrainTurn(c, s, t, o);
      SameCount(c, fs, s, top);
      ServedAcceptably(c, fs, s);
      match Served(c, s, top)
      case Advanced(next) =>
        AdvanceKeepsSound(c, fs, s, top);
        SoundDrain(c, fs, next, t, o);
        AfterAdvance(c, fs, s, next, t, o);
      case Finished(_) =>
    } else {
      DrainStopped(c, s, t, o);
    }
  }

  /** What a drain ends with from the next state on, it ends with from this one on. */
  lemma AfterAdvance(c: Config, fs: seq<Packet>, s: QueueState, next: QueueState, t: QueueState, o: Outcome)
    requires |fs| < TWO_32 && next.nextFrameCount == s.nextFrameCount + 1
    requires |next.queue| + next.nextFrameCount == |s.queue| + s.nextFrameCount
    requires forall k | 1 <= k <= |fs| :: Has(fs, next, k) == Has(fs, s, k)
    ensures (forall k | 1 <= k <= |fs| :: Has(fs, next, k)) ==> forall k | 1 <= k <= |fs| :: Has(fs, s, k)
    ensures o == Incomplete && SoundEnd(c, fs, next, t) ==> SoundEnd(c, fs, s, t)
  {
  }

  ghost predicate SoundEnd(c: Config, fs: seq<Packet>, s: QueueState, t: QueueState)
    requires |fs| < TWO_32
  {
    && Sound(c, fs, t) && !Has(fs, t, t.nextFrameCount) && s.nextFrameCount <= t.nextFrameCount
    && |t.queue| + t.nextFrameCount == |s.queue| + s.nextFrameCount
    && forall k | 1 <= k <= |fs| :: Has(fs, t, k) == Has(fs, s, k)
  }

  /** No frame of an acceptable transfer throws when its turn comes. */
  lemma ServedAcceptably(c: Config, fs: seq<Packet>, s: QueueState)
    requires Acceptable(c, fs) && Safe(c, fs, s) && fs[s.nextFrameCount - 1] in s.queue
    ensures !Served(c, s, fs[s.nextFrameCount - 1]).Failed?
  {
    var k := s.nextFrameCount - 1;
    if k + 1 < |fs| {
      EmittedGrows(c.diodeType, fs[..|fs| - 1], k + 1);
      assert fs[..|fs| - 1][..k + 1] == fs[..k + 1];
      EmittedStep(c.diodeType, fs, k);
    }
  }

  /** A doomed queue cannot get to its end of file. */
  lemma {:induction false} DoomedDrain(c: Config, fs: seq<Packet>, s: QueueState, t: QueueState, o: Outcome)
    requires Numbered(fs) && Safe(c, fs, s) && Doomed(fs, s) && Drains(c, s, t, o)
    ensures o != Complete && Doomed(fs, t)
    decreases |s.queue|
  {
    if Ready(s) {
      var top := DrainTurn(c, s, t, o);
      SameCount(c, fs, s, top);
      var p :| Blocks(fs, s, p);
      match Served(c, s, top)
      case Advanced(next) =>
        assert Blocks(fs, next, p);
        AdvanceKeepsSafe(c, fs, s, top);
        DoomedDrain(c, fs, next, t, o);
      case Failed(_) =>
    } else {
      DrainStopped(c, s, t, o);
    }
  }

  /** A queue that will never complete, whatever more of its transfer arrives. */
  ghost predicate Lost(c: Config, fs: seq<Packet>, s: QueueState)
    requires |fs| < TWO_32
  {
    Safe(c, fs, s) && !Ready(s) && (Full(c, s) || Doomed(fs, s))
  }

  /** An acceptable transfer's queue is not ready between writes. */
  lemma {:induction false} AcceptableDrain(c: Config, fs: seq<Packet>, s: QueueState, t: QueueState, o: Outcome)
    requires Acceptable(c, fs) && Safe(c, fs, s) && Drains(c, s, t, o)
    ensures !o.Threw?
    ensures o == Incomplete ==> Safe(c, fs, t) && !Ready(t)
    decreases |s.queue|
  {
    if Ready(s) {
      var top := DrainTurn(c, s, t, o);
      SameCount(c, fs, s, top);
      ServedAcceptably(c, fs, s);
      match Served(c, s, top)
      case Advanced(next) =>
        AdvanceKeepsSafe(c, fs, s, top);
        AcceptableDrain(c, fs, next, t, o);
      case Finished(_) =>
    } else {
      DrainStopped(c, s, t, o);
    }
  }

  lemma DoomedQueued(c: Config, fs: seq<Packet>, s: QueueState, p: Packet)
    requires Doomed(fs, s)
    ensures Doomed(fs, Enqueued(c, s, p))
  {
    var q :| Blocks(fs, s, q);
    assert Blocks(fs, Enqueued(c, s, p), q);
  }

  lemma LostWrite(c: Config, fs: seq<Packet>, s: QueueState, p: Packet, t: QueueState, o: Outcome)
    requires Acceptable(c, fs) && Lost(c, fs, s) && Genuine(fs, p) && Writes(c, s, p, t, o)
    ensures o == Incomplete && Lost(c, fs, t)
  {
    var e := Enqueued(c, s, p);
    if Full(c, s) {
      DrainStopped(c, s, t, o);
    } else {
      DoomedQueued(c, fs, s, p);
      DoomedDrain(c, fs, e, t, o);
      AcceptableDrain(c, fs, e, t, o);
    }
  }

  /** A queue through writes of frames of the transfer. */
  ghost predicate GenuineRun(
    c: Config, fs: seq<Packet>, states: seq<QueueState>, packets: seq<Packet>, outcomes: seq<Outcome>)
  {
    QueueRun(c, states, packets, outcomes) && forall p | p in packets :: Genuine(fs, p)
  }

  lemma {:induction false} SafeUntilComplete(
    c: Config, fs: seq<Packet>, states: seq<QueueState>, packets: seq<Packet>, outcomes: seq<Outcome>, i: nat)
    requires Numbered(fs) && GenuineRun(c, fs, states, packets, outcomes) && Safe(c, fs, states[0])
    requires i < |states| && forall k | 0 <= k < i :: outcomes[k] != Complete
    ensures Safe(c, fs, states[i])
  {
    if i > 0 {
      SafeUntilComplete(c, fs, states, packets, outcomes, i - 1);
      StepOf(c, states, packets, outcomes, i - 1);
      WriteKeepsSafe(c, fs, states[i - 1], packets[i - 1], states[i], outcomes[i - 1]);
    }
  }

  /** The first completion is that of the whole transfer, so only an acceptable one completes. */
  lemma CompletionIsWhole(
    c: Config, fs: seq<Packet>, states: seq<QueueState>, packets: seq<Packet>, outcomes: seq<Outcome>, i: nat)
    requires Numbered(fs) && GenuineRun(c, fs, states, packets, outcomes) && Safe(c, fs, states[0])
    requires i < |packets| && outcomes[i] == Complete && forall k | 0 <= k < i :: outcomes[k] != Complete
    ensures Acceptable(c, fs) && WholeAndNamed(c, fs, states[i + 1].calls)
  {
    SafeUntilComplete(c, fs, states, packets, outcomes, i);
    StepOf(c, states, packets, outcomes, i);
    WriteKeepsSafe(c, fs, states[i], packets[i], states[i + 1], outcomes[i]);
    WholeIsAcceptable(c, fs, states[i + 1].calls);
  }

  lemma {:induction false} CompletionIsAcceptable(
    c: Config, fs: seq<Packet>, states: seq<QueueState>, packets: seq<Packet>, outcomes: seq<Outcome>, i: nat)
    requires Numbered(fs) && GenuineRun(c, fs, states, packets, outcomes) && Safe(c, fs, states[0])
    requires i < |packets| && outcomes[i] == Complete
    ensures Acceptable(c, fs)
  {
    if k :| 0 <= k < i && outcomes[k] == Complete {
      CompletionIsAcceptable(c, fs, states, packets, outcomes, k);
    } else {
      CompletionIsWhole(c, fs, states, packets, outcomes, i);
    }
  }

  lemma {:induction false} LostStays(
    c: Config, fs: seq<Packet>, states: seq<QueueState>, packets: seq<Packet>, outcomes: seq<Outcome>, i: nat)
    requires Acceptable(c, fs) && GenuineRun(c, fs, states, packets, outcomes) && Lost(c, fs, states[0]) && i < |states|
    ensures Lost(c, fs, states[i])
    ensures i > 0 ==> outcomes[i - 1] == Incomplete
  {
    if i > 0 {
      LostStays(c, fs, states, packets, outcomes, i - 1);
      StepOf(c, states, packets, outcomes, i - 1);
      LostWrite(c, fs, states[i - 1], packets[i - 1], states[i], outcomes[i - 1]);
    }
  }

  ghost predicate Completing(
    c: Config, fs: seq<Packet>, s: QueueState, states: seq<QueueState>, packets: seq<Packet>, outcomes: seq<Outcome>)
  {
    GenuineRun(c, fs, states, packets, outcomes) && states[0] == s && Complete in outcomes
  }

  /** Some writes of frames of the transfer, if the right ones arrive, complete the queue. */
  ghost predicate Completable(c: Config, fs: seq<Packet>, s: QueueState) {
    exists states, packets, outcomes :: Completing(c, fs, s, states, packets, outcomes)
  }

  lemma WritePrepended(
    c: Config, fs: seq<Packet>, s: QueueState, p: Packet, o: Outcome, states: seq<QueueState>, packets: seq<Packet>,
    outcomes: seq<Outcome>)
    requires GenuineRun(c, fs, states, packets, outcomes) && Genuine(fs, p) && Writes(c, s, p, states[0], o)
    ensures GenuineRun(c, fs, [s] + states, [p] + packets, [o] + outcomes)
  {
    var more, all, ends := [s] + states, [p] + packets, [o] + outcomes;
    forall i | 0 <= i < |all|
      ensures WriteAt(c, more, all, ends, i)
    {
      if i > 0 {
        assert WriteAt(c, states, packets, outcomes, i - 1);
      }
    }
  }

  /** The frame it waits for takes a sound queue further, and leaves no more queued. */
  lemma NextFrameHelps(c: Config, fs: seq<Packet>, s: QueueState) returns (t: QueueState, o: Outcome)
    requires Acceptable(c, fs) && Sound(c, fs, s) && !Ready(s) && !Full(c, s)
    ensures Writes(c, s, fs[s.nextFrameCount - 1], t, o) && (o == Complete || o == Incomplete)
    ensures o == Incomplete ==> Sound(c, fs, t) && !Ready(t) && !Full(c, t) && s.nextFrameCount < t.nextFrameCount
  {
    var p := fs[s.nextFrameCount - 1];
    var e := Enqueued(c, s, p);
    ReadyIff(c, fs, s);
    FreshKeepsSound(c, fs, s, p);
    t, o := DrainExists(c, e);
    SoundDrain(c, fs, e, t, o);
    if o == Incomplete {
      ReadyIff(c, fs, t);
      EndIsFurther(c, fs, e, t);
    }
  }

  lemma EndIsFurther(c: Config, fs: seq<Packet>, s: QueueState, t: QueueState)
    requires Numbered(fs) && Safe(c, fs, s) && SoundEnd(c, fs, s, t) && Has(fs, s, s.nextFrameCount)
    ensures s.nextFrameCount < t.nextFrameCount && |t.queue| < |s.queue|
  {
    assert Has(fs, t, s.nextFrameCount);
  }

  /** A frame that was not there before, or the end of file, dooms nothing. */
  lemma FreshKeepsSound(c: Config, fs: seq<Packet>, s: QueueState, p: Packet)
    requires Numbered(fs) && Sound(c, fs, s) && !Full(c, s) && Genuine(fs, p)
    requires FrameCount(p) == |fs| || !Has(fs, s, FrameCount(p))
    ensures Sound(c, fs, Enqueued(c, s, p))
  {
    var e := Enqueued(c, s, p);
    forall q
      ensures !Blocks(fs, e, q)
    {
      assert !Blocks(fs, s, q);
    }
  }

  lemma {:induction false} CanComplete(c: Config, fs: seq<Packet>, s: QueueState)
    returns (states: seq<QueueState>, packets: seq<Packet>, outcomes: seq<Outcome>)
    requires Acceptable(c, fs) && Sound(c, fs, s) && !Ready(s) && !Full(c, s)
    ensures Completing(c, fs, s, states, packets, outcomes)
    decreases |fs| - s.nextFrameCount
  {
    var p := fs[s.nextFrameCount - 1];
    var t, o := NextFrameHelps(c, fs, s);
    states, packets, outcomes := [t], [], [];
    if o == Incomplete {
      states, packets, outcomes := CanComplete(c, fs, t);
    }
    WritePrepended(c, fs, s, p, o, states, packets, outcomes);
    states, packets, outcomes := [s] + states, [p] + packets, [o] + outcomes;
  }

  lemma {:induction false} NotReadyBetweenWrites(
    c: Config, fs: seq<Packet>, states: seq<QueueState>, packets: seq<Packet>, outcomes: seq<Outcome>, i: nat)
    requires Acceptable(c, fs) && GenuineRun(c, fs, states, packets, outcomes) && states[0] == INITIAL_QUEUE
    requires i < |states| && forall k | 0 <= k < i :: outcomes[k] != Complete
    ensures Safe(c, fs, states[i]) && !Ready(states[i])
  {
    InitiallySafe(c, fs);
    if i > 0 {
      SafeUntilComplete(c, fs, states, packets, outcomes, i - 1);
      StepOf(c, states, packets, outcomes, i - 1);
      var e := Enqueued(c, states[i - 1], packets[i - 1]);
      AcceptableDrain(c, fs, e, states[i], outcomes[i - 1]);
    }
  }

  /** Which queues can still complete. After any writes of frames of one transfer, losses and
      repeats included, and whether or not some of them threw, further frames of it can complete the
      queue if and only if the transfer is acceptable, the queue is not full, and no data frame
      that is queued has been written already or is queued again. */
  lemma CompletableIff(
    c: Config, fs: seq<Packet>, states: seq<QueueState>, packets: seq<Packet>, outcomes: seq<Outcome>, i: nat)
    requires Numbered(fs) && GenuineRun(c, fs, states, packets, outcomes) && states[0] == INITIAL_QUEUE
    requires i < |states| && forall k | 0 <= k < i :: outcomes[k] != Complete
    ensures Completable(c, fs, states[i]) <==> Acceptable(c, fs) && !Full(c, states[i]) && !Doomed(fs, states[i])
  {
    var s := states[i];
    InitiallySafe(c, fs);
    SafeUntilComplete(c, fs, states, packets, outcomes, i);
    if ts, ps, os :| Completing(c, fs, s, ts, ps, os) {
      var k :| 0 <= k < |os| && os[k] == Complete;
      CompletionIsAcceptable(c, fs, ts, ps, os, k);
      NotReadyBetweenWrites(c, fs, states, packets, outcomes, i);
      if Lost(c, fs, s) {
        LostStays(c, fs, ts, ps, os, k + 1);
        assert false;
      }
    }
    if Acceptable(c, fs) && !Full(c, s) && !Doomed(fs, s) {
      NotReadyBetweenWrites(c, fs, states, packets, outcomes, i);
      var ts, ps, os := CanComplete(c, fs, s);
    }
  }
}
