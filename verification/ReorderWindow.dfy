/** How far frames may overtake each other: a window no wider than the queue suffices for
    delivery, and no wider one does. */
module ReorderWindow {
  import opened EnterpriseDiode
  import opened Reordering
  import opened Transfers
  import opened DeadQueues
  import opened Completion
  import opened Delivery

  /** Whenever a frame overtakes an earlier one, it is fewer than q frames ahead of it. */
  predicate Window(order: seq<nat>, q: nat) {
    forall i, j | 0 <= i < j < |order| && order[j] < order[i] :: order[i] - order[j] < q
  }

  /** Frames 2 to q + 1, then frame 1, then the rest in order. */
  function TightOrder(m: nat, q: nat): (order: seq<nat>)
    requires q < m
    ensures |order| == m
  {
    seq(m, i => if i < q then i + 2 else if i == q then 1 else i + 1)
  }

  /** Within the window every frame that has arrived is one of the q - 1 behind the missing one
      or before it. */
  lemma ArrivedInWindow(order: seq<nat>, m: nat, q: nat, i: nat, r: nat)
    requires Permutation(order, m) && Window(order, q) && q >= 1
    requires r <= i < m && RunOf(Arrived(order, i), r)
    ensures Arrived(order, i) <= Upto(r + q) - {r + 1}
  {
    forall k | 0 <= k < i
      ensures order[k] != r + 1
    {
      assert order[k] in Arrived(order, i);
    }
    assert r + 1 in order;
    var j :| 0 <= j < m && order[j] == r + 1;
    forall k | 0 <= k < i
      ensures order[k] in Upto(r + q)
    {
      assert order[k] in order;
      assert order[j] < order[k] ==> order[k] - order[j] < q;
    }
  }

  lemma RemovedSize(s: set<nat>, x: nat)
    requires x in s
    ensures |s - {x}| == |s| - 1
  {
  }

  lemma WindowNeverFull(order: seq<nat>, m: nat, q: nat)
    requires Permutation(order, m) && Window(order, q) && q >= 1
    ensures NeverFull(order, q)
  {
    forall i | 0 <= i < m
      ensures HasRoom(order, q, i)
    {
      forall r: nat | r <= i && RunOf(Arrived(order, i), r)
        ensures i - r < q
      {
        ArrivedInWindow(order, m, q, i, r);
        ArrivedSize(order, m, i);
        SubsetSize(Arrived(order, i), Upto(r + q) - {r + 1});
        RemovedSize(Upto(r + q), r + 1);
      }
    }
  }

  lemma TightPermutation(m: nat, q: nat)
    requires q < m
    ensures Permutation(TightOrder(m, q), m)
  {
    var order := TightOrder(m, q);
    forall k | 1 <= k <= m
      ensures k in order
    {
      assert order[if k == 1 then q else if k <= q + 1 then k - 2 else k - 1] == k;
    }
  }

  lemma TightFills(m: nat, q: nat)
    requires q < m
    ensures !NeverFull(TightOrder(m, q), q)
  {
    var order := TightOrder(m, q);
    assert RunOf(Arrived(order, q), 0);
    assert !HasRoom(order, q, q);
  }

  /** With each frame arriving once, what the next write says. */
  lemma OnceDelivers(
    c: Config, fs: seq<Packet>, order: seq<nat>, states: seq<QueueState>, outcomes: seq<Outcome>, i: nat)
    requires Acceptable(c, fs) && Permutation(order, |fs|) && i < |fs|
    requires QueueRun(c, states, Deliveries(fs, order), outcomes) && states[0] == INITIAL_QUEUE
    ensures outcomes[i] == if i + 1 == |fs| && NeverFull(order, c.maxQueueLength) then Complete else Incomplete
    ensures outcomes[i] == Complete ==> WholeAndNamed(c, fs, states[i + 1].calls)
  {
    forall k | 0 <= k <= i + 1
      ensures CompletesAt(order, |fs|, c.maxQueueLength, k) <==> 0 < k == |fs| && NeverFull(order, c.maxQueueLength)
    {
      OnceCompletesIff(order, |fs|, c.maxQueueLength, k);
    }
    AcceptableDelivery(c, fs, order, states, Deliveries(fs, order), outcomes, i);
    DeliveredIff(c, fs, order, states, Deliveries(fs, order), outcomes, i);
  }

  /** If each frame arrives once and none overtakes an earlier one by maxQueueLength frames or
      more, then the transfer is completed, whole and named, by its last arrival, not before. */
  lemma WindowDelivers(
    c: Config, fs: seq<Packet>, order: seq<nat>, states: seq<QueueState>, outcomes: seq<Outcome>, i: nat)
    requires Acceptable(c, fs) && Permutation(order, |fs|)
    requires Window(order, c.maxQueueLength) && c.maxQueueLength >= 1
    requires QueueRun(c, states, Deliveries(fs, order), outcomes) && states[0] == INITIAL_QUEUE && i < |fs|
    ensures outcomes[i] == if i + 1 == |fs| then Complete else Incomplete
    ensures i + 1 == |fs| ==> WholeAndNamed(c, fs, states[i + 1].calls)
  {
    WindowNeverFull(order, |fs|, c.maxQueueLength);
    OnceDelivers(c, fs, order, states, outcomes, i);
  }

  /** The window cannot be any wider: every transfer longer than the queue has an order within a
      window of maxQueueLength + 1 in which it never completes. */
  lemma WindowIsTight(c: Config, fs: seq<Packet>, states: seq<QueueState>, outcomes: seq<Outcome>)
    requires Acceptable(c, fs) && c.maxQueueLength < |fs|
    ensures var order := TightOrder(|fs|, c.maxQueueLength);
            && Permutation(order, |fs|) && Window(order, c.maxQueueLength + 1)
            && (QueueRun(c, states, Deliveries(fs, order), outcomes) && states[0] == INITIAL_QUEUE
                ==> forall o | o in outcomes :: o == Incomplete)
  {
    var q := c.maxQueueLength;
    var order := TightOrder(|fs|, q);
    TightPermutation(|fs|, q);
    TightFills(|fs|, q);
    if QueueRun(c, states, Deliveries(fs, order), outcomes) && states[0] == INITIAL_QUEUE {
      forall i | 0 <= i < |outcomes|
        ensures outcomes[i] == Incomplete
      {
        OnceDelivers(c, fs, order, states, outcomes, i);
      }
    }
  }
}
