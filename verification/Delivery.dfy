/** When a transfer is delivered, of which the frames may be lost, repeated and reordered: the exact
    condition on the order of arrival. */
module Delivery {
  import opened Common
  import opened EnterpriseDiode
  import opened Reordering
  import opened Transfers
  import opened DeadQueues
  import opened Completion

  /** The frames among the first i arrivals. */
  function Arrived(order: seq<nat>, i: nat): set<nat>
    requires i <= |order|
  {
    set j | 0 <= j < i :: order[j]
  }

  /** Arrivals of frames 1 to m, of some of them perhaps none, of others several. */
  predicate FramesOf(order: seq<nat>, m: nat) {
    forall k | k in order :: 1 <= k <= m
  }

  predicate AllIn(arrived: set<nat>, m: nat) {
    forall k | 1 <= k <= m :: k in arrived
  }

  /** Frames 1 to r have arrived, frame r + 1 has not. */
  predicate RunOf(arrived: set<nat>, r: nat) {
    (forall k | 1 <= k <= r :: k in arrived) && r + 1 !in arrived
  }

  /** Before the arrival fewer than q of the earlier ones are waiting for a missing frame. */
  predicate HasRoom(order: seq<nat>, q: nat, i: nat)
    requires i < |order|
  {
    forall r: nat | r <= i && RunOf(Arrived(order, i), r) :: i - r < q
  }

  predicate NeverFullBefore(order: seq<nat>, q: nat, n: nat)
    requires n <= |order|
  {
    forall i | 0 <= i < n :: HasRoom(order, q, i)
  }

  predicate NeverFull(order: seq<nat>, q: nat) {
    NeverFullBefore(order, q, |order|)
  }

  /** The arrival is of a frame that had not arrived before, or of the end of file. */
  predicate IsFresh(order: seq<nat>, m: nat, i: nat)
    requires i < |order|
  {
    order[i] == m || order[i] !in Arrived(order, i)
  }

  /** No data frame arrives twice among the first n arrivals. */
  predicate NoRepeatBefore(order: seq<nat>, m: nat, n: nat)
    requires n <= |order|
  {
    forall i | 0 <= i < n :: IsFresh(order, m, i)
  }

  /** The n-th arrival is the first after which all frames have arrived; until then no data frame
      arrived twice and the queue was never full. */
  predicate CompletesAt(order: seq<nat>, m: nat, q: nat, n: nat)
    requires n <= |order|
  {
    && 0 < n && AllIn(Arrived(order, n), m) && !AllIn(Arrived(order, n - 1), m)
    && NeverFullBefore(order, q, n) && NoRepeatBefore(order, m, n)
  }

  function Deliveries(fs: seq<Packet>, order: seq<nat>): (ps: seq<Packet>)
    requires FramesOf(order, |fs|)
    ensures |ps| == |order|
  {
    seq(|order|, i requires 0 <= i < |order| => assert order[i] in order; fs[order[i] - 1])
  }

  lemma ArrivedStep(order: seq<nat>, i: nat)
    requires i < |order|
    ensures Arrived(order, i + 1) == Arrived(order, i) + {order[i]}
  {
  }

  lemma RunOfUnique(arrived: set<nat>, r: nat, s: nat)
    requires RunOf(arrived, r) && RunOf(arrived, s)
    ensures r == s
  {
    assert !(r < s) && !(s < r);
  }

  /** The queue after i arrivals that were all accepted and did not complete the transfer: the run
      from frame 1 has been written and everything else that arrived is queued. */
  ghost predicate Tracks(c: Config, fs: seq<Packet>, order: seq<nat>, i: nat, s: QueueState)
    requires |fs| < TWO_32 && i <= |order|
  {
    && Sound(c, fs, s) && !Has(fs, s, s.nextFrameCount)
    && |s.queue| + s.nextFrameCount == i + 1
    && forall k | 1 <= k <= |fs| :: Has(fs, s, k) == (k in Arrived(order, i))
  }

  lemma StartTracking(c: Config, fs: seq<Packet>, order: seq<nat>)
    requires Numbered(fs)
    ensures Tracks(c, fs, order, 0, INITIAL_QUEUE)
  {
    InitiallySafe(c, fs);
    assert !exists p :: Blocks(fs, INITIAL_QUEUE, p);
  }

  /** What the queue shows of the arrivals: its length, and that frames are missing. */
  lemma TracksRun(c: Config, fs: seq<Packet>, order: seq<nat>, i: nat, s: QueueState)
    requires Numbered(fs) && i < |order| && Tracks(c, fs, order, i, s)
    ensures HasRoom(order, c.maxQueueLength, i) <==> !Full(c, s)
    ensures !AllIn(Arrived(order, i), |fs|) && !Ready(s)
  {
    var r := s.nextFrameCount - 1;
    ReadyIff(c, fs, s);
    assert r + 1 !in Arrived(order, i);
    forall k | 1 <= k <= r
      ensures k in Arrived(order, i)
    {
      assert Has(fs, s, k);
    }
    assert RunOf(Arrived(order, i), r);
    forall other: nat | RunOf(Arrived(order, i), other)
      ensures other == r
    {
      RunOfUnique(Arrived(order, i), other, r);
    }
  }

  /** One more frame, accepted. */
  lemma EnqueuedHas(fs: seq<Packet>, s: QueueState, e: QueueState, p: Packet, k: nat)
    requires Numbered(fs) && Genuine(fs, p) && 1 <= k <= |fs|
    requires e == s.(queue := s.queue + multiset{p})
    ensures Has(fs, e, k) <==> Has(fs, s, k) || k == FrameCount(p)
  {
  }

  lemma HasWhatArrived(
    c: Config, fs: seq<Packet>, order: seq<nat>, i: nat, s: QueueState, p: Packet)
    requires Numbered(fs) && i < |order| && Tracks(c, fs, order, i, s) && !Full(c, s)
    requires Genuine(fs, p) && FrameCount(p) == order[i]
    ensures forall k | 1 <= k <= |fs| :: Has(fs, Enqueued(c, s, p), k) == (k in Arrived(order, i + 1))
  {
    ArrivedStep(order, i);
    forall k | 1 <= k <= |fs|
      ensures Has(fs, Enqueued(c, s, p), k) == (k in Arrived(order, i + 1))
    {
      EnqueuedHas(fs, s, Enqueued(c, s, p), p, k);
    }
  }

  /** What a drain ends with, of a queue that has what arrived. */
  lemma DrainDecides(
    c: Config, fs: seq<Packet>, order: seq<nat>, i: nat, e: QueueState, t: QueueState, o: Outcome)
    requires Acceptable(c, fs) && i <= |order| && Sound(c, fs, e) && Drains(c, e, t, o)
    requires |e.queue| + e.nextFrameCount == i + 1
    requires forall k | 1 <= k <= |fs| :: Has(fs, e, k) == (k in Arrived(order, i))
    ensures if AllIn(Arrived(order, i), |fs|) then o == Complete else o == Incomplete && Tracks(c, fs, order, i, t)
  {
    SoundDrain(c, fs, e, t, o);
    if o == Incomplete {
      assert Has(fs, t, t.nextFrameCount) == Has(fs, e, t.nextFrameCount);
    }
  }

  /** An arrival of a fresh frame at a queue with room for it. */
  lemma FreshArrival(
    c: Config, fs: seq<Packet>, order: seq<nat>, i: nat, s: QueueState, p: Packet, t: QueueState, o: Outcome)
    requires Acceptable(c, fs) && i < |order| && Tracks(c, fs, order, i, s) && !Full(c, s) && IsFresh(order, |fs|, i)
    requires Genuine(fs, p) && FrameCount(p) == order[i] && Writes(c, s, p, t, o)
    ensures if AllIn(Arrived(order, i + 1), |fs|) then o == Complete
            else o == Incomplete && Tracks(c, fs, order, i + 1, t)
  {
    FreshKeepsSound(c, fs, s, p);
    HasWhatArrived(c, fs, order, i, s, p);
    DrainDecides(c, fs, order, i + 1, Enqueued(c, s, p), t, o);
  }

  /** An arrival at a full queue, or of a data frame for the second time. */
  lemma LosingArrival(
    c: Config, fs: seq<Packet>, order: seq<nat>, i: nat, s: QueueState, p: Packet, t: QueueState, o: Outcome)
    requires Acceptable(c, fs) && i < |order| && Tracks(c, fs, order, i, s) && (Full(c, s) || !IsFresh(order, |fs|, i))
    requires Genuine(fs, p) && FrameCount(p) == order[i] && Writes(c, s, p, t, o)
    ensures o == Incomplete && Lost(c, fs, t)
  {
    TracksRun(c, fs, order, i, s);
    if Full(c, s) {
      LostWrite(c, fs, s, p, t, o);
    } else {
      var e := Enqueued(c, s, p);
      assert Has(fs, s, FrameCount(p));
      assert Blocks(fs, e, p);
      DoomedDrain(c, fs, e, t, o);
      AcceptableDrain(c, fs, e, t, o);
    }
  }

  lemma DeliveryAt(fs: seq<Packet>, order: seq<nat>, packets: seq<Packet>, i: nat)
    requires Numbered(fs) && FramesOf(order, |fs|) && packets <= Deliveries(fs, order) && i < |packets|
    ensures i < |order| && Genuine(fs, packets[i]) && FrameCount(packets[i]) == order[i]
  {
    assert order[i] in order;
    assert packets[i] == Deliveries(fs, order)[i];
  }

  /** No frame was lost to the queue so far. */
  predicate Intact(order: seq<nat>, m: nat, q: nat, i: nat)
    requires i <= |order|
  {
    NeverFullBefore(order, q, i) && NoRepeatBefore(order, m, i)
  }

  lemma IntactStep(order: seq<nat>, m: nat, q: nat, i: nat)
    requires i < |order|
    ensures Intact(order, m, q, i + 1) <==> Intact(order, m, q, i) && HasRoom(order, q, i) && IsFresh(order, m, i)
  {
  }

  /** The state before an arrival, none of the earlier ones having completed the transfer. */
  ghost predicate Before(c: Config, fs: seq<Packet>, order: seq<nat>, i: nat, s: QueueState)
    requires |fs| < TWO_32 && i <= |order|
  {
    if Intact(order, |fs|, c.maxQueueLength, i) then Tracks(c, fs, order, i, s) else Lost(c, fs, s)
  }

  /** One arrival: it completes the transfer or the next one finds the queue so again. */
  lemma ArrivalStep(
    c: Config, fs: seq<Packet>, order: seq<nat>, i: nat, s: QueueState, p: Packet, t: QueueState, o: Outcome)
    requires Acceptable(c, fs) && i < |order| && Before(c, fs, order, i, s)
    requires Genuine(fs, p) && FrameCount(p) == order[i] && Writes(c, s, p, t, o)
    ensures if CompletesAt(order, |fs|, c.maxQueueLength, i + 1) then o == Complete
            else o == Incomplete && Before(c, fs, order, i + 1, t)
  {
    IntactStep(order, |fs|, c.maxQueueLength, i);
    if !Intact(order, |fs|, c.maxQueueLength, i) {
      LostWrite(c, fs, s, p, t, o);
    } else {
      TracksRun(c, fs, order, i, s);
      if !Full(c, s) && IsFresh(order, |fs|, i) {
        FreshArrival(c, fs, order, i, s, p, t, o);
      } else {
        LosingArrival(c, fs, order, i, s, p, t, o);
      }
    }
  }

  /** The queue before each arrival, as long as no earlier one could complete the transfer. */
  lemma {:induction false} Progress(
    c: Config, fs: seq<Packet>, order: seq<nat>, states: seq<QueueState>, packets: seq<Packet>, outcomes: seq<Outcome>,
    i: nat)
    requires Acceptable(c, fs) && FramesOf(order, |fs|) && packets <= Deliveries(fs, order)
    requires QueueRun(c, states, packets, outcomes) && states[0] == INITIAL_QUEUE && i <= |packets|
    requires forall k | 0 <= k <= i :: !CompletesAt(order, |fs|, c.maxQueueLength, k)
    ensures Before(c, fs, order, i, states[i])
    ensures i > 0 ==> outcomes[i - 1] == Incomplete
  {
    if i == 0 {
      StartTracking(c, fs, order);
    } else {
      Progress(c, fs, order, states, packets, outcomes, i - 1);
      StepOf(c, states, packets, outcomes, i - 1);
      DeliveryAt(fs, order, packets, i - 1);
      ArrivalStep(c, fs, order, i - 1, states[i - 1], packets[i - 1], states[i], outcomes[i - 1]);
    }
  }

  lemma AcceptableDelivery(
    c: Config, fs: seq<Packet>, order: seq<nat>, states: seq<QueueState>, packets: seq<Packet>, outcomes: seq<Outcome>,
    i: nat)
    requires Acceptable(c, fs) && FramesOf(order, |fs|) && packets <= Deliveries(fs, order)
    requires QueueRun(c, states, packets, outcomes) && states[0] == INITIAL_QUEUE && i < |packets|
    requires forall k | 0 <= k <= i :: !CompletesAt(order, |fs|, c.maxQueueLength, k)
    ensures outcomes[i] == if CompletesAt(order, |fs|, c.maxQueueLength, i + 1) then Complete else Incomplete
  {
    Progress(c, fs, order, states, packets, outcomes, i);
    StepOf(c, states, packets, outcomes, i);
    DeliveryAt(fs, order, packets, i);
    ArrivalStep(c, fs, order, i, states[i], packets[i], states[i + 1], outcomes[i]);
  }

  lemma DeliveriesGenuine(
    c: Config, fs: seq<Packet>, order: seq<nat>, states: seq<QueueState>, packets: seq<Packet>, outcomes: seq<Outcome>)
    requires Numbered(fs) && FramesOf(order, |fs|) && packets <= Deliveries(fs, order)
    requires QueueRun(c, states, packets, outcomes)
    ensures GenuineRun(c, fs, states, packets, outcomes)
  {
    forall i | 0 <= i < |packets|
      ensures Genuine(fs, packets[i])
    {
      DeliveryAt(fs, order, packets, i);
    }
  }

  /** Frames of a transfer arrive in some order, some perhaps never and some more than once. The
      first write that completes the transfer, whole and named, is the one after which all frames
      have arrived, if and only if no frame of the transfer throws when its turn comes, no data frame
      had arrived twice until then, and at no arrival maxQueueLength frames were waiting for a
      missing one. An acceptable transfer does not throw either. */
  lemma DeliveredIff(
    c: Config, fs: seq<Packet>, order: seq<nat>, states: seq<QueueState>, packets: seq<Packet>, outcomes: seq<Outcome>,
    i: nat)
    requires Numbered(fs) && FramesOf(order, |fs|) && packets <= Deliveries(fs, order)
    requires QueueRun(c, states, packets, outcomes) && states[0] == INITIAL_QUEUE && i < |packets|
    requires forall k | 0 <= k <= i :: !CompletesAt(order, |fs|, c.maxQueueLength, k)
    ensures outcomes[i] == Complete <==> Acceptable(c, fs) && CompletesAt(order, |fs|, c.maxQueueLength, i + 1)
    ensures outcomes[i] == Complete ==> WholeAndNamed(c, fs, states[i + 1].calls)
    ensures outcomes[i].Threw? ==> !Acceptable(c, fs)
  {
    InitiallySafe(c, fs);
    DeliveriesGenuine(c, fs, order, states, packets, outcomes);
    if Acceptable(c, fs) {
      AcceptableDelivery(c, fs, order, states, packets, outcomes, i);
      forall k | 0 <= k < i
        ensures outcomes[k] != Complete
      {
        AcceptableDelivery(c, fs, order, states, packets, outcomes, k);
      }
      if outcomes[i] == Complete {
        CompletionIsWhole(c, fs, states, packets, outcomes, i);
      }
    } else if outcomes[i] == Complete {
      CompletionIsAcceptable(c, fs, states, packets, outcomes, i);
    }
  }

  /** m arrivals of frames 1 to m, among which are all of them: each arrives exactly once. */
  predicate Permutation(order: seq<nat>, m: nat) {
    && |order| == m && FramesOf(order, m)
    && (forall k | 1 <= k <= m :: k in order)
  }

  function Upto(m: nat): (s: set<nat>)
    ensures |s| == m
    ensures forall k :: k in s <==> 1 <= k <= m
  {
    if m == 0 then {} else Upto(m - 1) + {m}
  }

  lemma {:induction false} SubsetSize(a: set<nat>, b: set<nat>)
    requires a <= b
    ensures |a| <= |b|
    ensures |a| == |b| ==> a == b
    decreases |a|
  {
    if a == {} {
    } else {
      var x :| x in a;
      SubsetSize(a - {x}, b - {x});
      assert a == (a - {x}) + {x} && b == (b - {x}) + {x};
    }
  }

  lemma {:induction false} ArrivedAtMost(order: seq<nat>, i: nat, j: nat)
    requires i <= j <= |order|
    ensures |Arrived(order, j)| <= |Arrived(order, i)| + j - i
    decreases j
  {
    if i < j {
      ArrivedAtMost(order, i, j - 1);
      ArrivedStep(order, j - 1);
    }
  }

  lemma ArrivedSize(order: seq<nat>, m: nat, i: nat)
    requires Permutation(order, m) && i <= m
    ensures |Arrived(order, i)| == i
  {
    ArrivedAtMost(order, i, m);
    ArrivedAtMost(order, 0, i);
    InOrderArrived(order, m);
  }

  lemma InOrderArrived(order: seq<nat>, m: nat)
    requires Permutation(order, m)
    ensures Arrived(order, m) == Upto(m)
  {
    forall k | k in Upto(m)
      ensures k in Arrived(order, m)
    {
      assert k in order;
    }
    forall j | 0 <= j < m
      ensures order[j] in Upto(m)
    {
      assert order[j] in order;
    }
  }

  lemma AddedSize(s: set<nat>, x: nat)
    ensures |s + {x}| == if x in s then |s| else |s| + 1
  {
    if x in s {
      assert s + {x} == s;
    }
  }

  lemma NewArrival(order: seq<nat>, m: nat, i: nat)
    requires Permutation(order, m) && i < m
    ensures order[i] !in Arrived(order, i)
  {
    ArrivedSize(order, m, i);
    ArrivedSize(order, m, i + 1);
    ArrivedStep(order, i);
    AddedSize(Arrived(order, i), order[i]);
  }

  /** All frames have arrived exactly after the last arrival. */
  lemma AllArrived(order: seq<nat>, m: nat, i: nat)
    requires Permutation(order, m) && i <= m
    ensures AllIn(Arrived(order, i), m) <==> i == m
  {
    ArrivedSize(order, m, i);
    InOrderArrived(order, m);
    if AllIn(Arrived(order, i), m) {
      SubsetSize(Upto(m), Arrived(order, i));
    }
  }

  /** If each frame arrives once, the last arrival is the only one that can complete the transfer,
      and it does if and only if the queue was never full. */
  lemma OnceCompletesIff(order: seq<nat>, m: nat, q: nat, n: nat)
    requires Permutation(order, m) && n <= m
    ensures CompletesAt(order, m, q, n) <==> 0 < n == m && NeverFull(order, q)
  {
    AllArrived(order, m, n);
    if 0 < n == m {
      AllArrived(order, m, n - 1);
      forall i | 0 <= i < n
        ensures IsFresh(order, m, i)
      {
        NewArrival(order, m, i);
      }
    }
  }
}
