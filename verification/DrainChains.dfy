/** What a drain can end with, told from the queued packets alone. */
module DrainChains {
  import opened Common
  import opened EnterpriseDiode
  import opened Rewrapping
  import opened Reordering

  /** The rewrapper's state after it has been given data frames n, n + 1, ... in order. */
  function Rewrapper(d: DiodeType, rewrapper: RewrapState, ps: seq<Packet>, n: nat): Result<RewrapState>
    requires n + |ps| < TWO_32
    decreases |ps|
  {
    if ps == [] then Success(rewrapper)
    else match FrameOutput(d, rewrapper, ps[0], n)
      case Failure(e) => Failure(e)
      case Success((next, _)) => Rewrapper(d, next, ps[1..], n + 1)
  }

  /** A queued packet with count n, and no other is queued with that count. */
  predicate Alone(queue: multiset<Packet>, p: Packet, n: nat) {
    queue[p] == 1 && FrameCount(p) == n && forall q | q in queue && FrameCount(q) == n :: q == p
  }

  /** From the next count on, the data frames ps are each queued once and alone. */
  predicate Links(s: QueueState, ps: seq<Packet>) {
    forall i | 0 <= i < |ps| :: Alone(s.queue, ps[i], s.nextFrameCount + i) && !ps[i].headerParams.eOFFlag
  }

  predicate NothingStale(s: QueueState) {
    forall p | p in s.queue :: s.nextFrameCount <= FrameCount(p)
  }

  /** What becomes of a packet whose turn it is: it ends the drain with this outcome. */
  predicate EndsWith(c: Config, rewrapper: RewrapState, p: Packet, o: Outcome) {
    if p.headerParams.eOFFlag then
      match StoredName(c, p.payload)
      case Success(_) => o == Complete
      case Failure(e) => o == Threw(e)
    else
      match FrameOutput(c.diodeType, rewrapper, p, FrameCount(p))
      case Success(_) => false
      case Failure(e) => o == Threw(e)
  }

  /** Nothing stale is queued, the frames ps come next and can be written, and then a packet that
      ends the drain. */
  predicate Chain(c: Config, s: QueueState, ps: seq<Packet>, last: Packet, o: Outcome) {
    && NothingStale(s) && Links(s, ps)
    && last in s.queue && FrameCount(last) == s.nextFrameCount + |ps|
    && Rewrapper(c.diodeType, s.rewrapper, ps, s.nextFrameCount).Success?
    && EndsWith(c, Rewrapper(c.diodeType, s.rewrapper, ps, s.nextFrameCount).value, last, o)
  }

  lemma TopIsLeast(s: QueueState, top: Packet)
    requires NothingStale(s) && top in s.queue && FrameCount(top) == s.nextFrameCount
    ensures IsTop(s.queue, top)
  {
  }

  /** A chain is a way the drain can go. */
  lemma {:induction false} ChainDrains(c: Config, s: QueueState, ps: seq<Packet>, last: Packet, o: Outcome)
    returns (t: QueueState)
    requires Chain(c, s, ps, last, o)
    ensures Drains(c, s, t, o)
    decreases |ps|
  {
    if ps == [] {
      TopIsLeast(s, last);
      TurnDrains(c, s, last);
      t := if o == Complete then Served(c, s, last).last else s;
    } else {
      assert Alone(s.queue, ps[0], s.nextFrameCount + 0);
      TopIsLeast(s, ps[0]);
      TurnDrains(c, s, ps[0]);
      var next := Served(c, s, ps[0]).next;
      ChainAdvances(c, s, ps, last, o);
      t := ChainDrains(c, next, ps[1..], last, o);
    }
  }

  lemma LinksAdvance(s: QueueState, ps: seq<Packet>, next: QueueState)
    requires ps != [] && Links(s, ps)
    requires next.queue == s.queue - multiset{ps[0]} && next.nextFrameCount == s.nextFrameCount + 1
    ensures Links(next, ps[1..])
  {
    assert Alone(s.queue, ps[0], s.nextFrameCount + 0);
    forall i | 0 <= i < |ps[1..]|
      ensures Alone(next.queue, ps[1..][i], next.nextFrameCount + i) && !ps[1..][i].headerParams.eOFFlag
    {
      assert Alone(s.queue, ps[i + 1], s.nextFrameCount + (i + 1));
    }
  }

  lemma ChainAdvances(c: Config, s: QueueState, ps: seq<Packet>, last: Packet, o: Outcome)
    requires Chain(c, s, ps, last, o) && ps != []
    ensures ps[0] in s.queue && Served(c, s, ps[0]).Advanced?
    ensures Chain(c, Served(c, s, ps[0]).next, ps[1..], last, o)
  {
    assert Alone(s.queue, ps[0], s.nextFrameCount + 0);
    var next := Served(c, s, ps[0]).next;
    LinksAdvance(s, ps, next);
    assert NothingStale(next) by {
      forall p | p in next.queue
        ensures s.nextFrameCount < FrameCount(p)
      {
        assert p in s.queue;
      }
    }
  }

  /** Every end of a drain comes from a chain. */
  lemma {:induction false} DrainIsChain(c: Config, s: QueueState, t: QueueState, o: Outcome)
    returns (ps: seq<Packet>, last: Packet)
    requires Drains(c, s, t, o) && o != Incomplete
    ensures Chain(c, s, ps, last, o)
    decreases |s.queue|
  {
    if !Ready(s) {
      DrainStopped(c, s, t, o);
    }
    var top := DrainTurn(c, s, t, o);
    match Served(c, s, top)
    case Advanced(next) =>
      ps, last := DrainIsChain(c, next, t, o);
      ChainPrepended(c, s, top, ps, last, o);
      ps := [top] + ps;
    case Finished(_) => ps, last := [], top;
    case Failed(_) => ps, last := [], top;
  }

  lemma ChainStart(c: Config, s: QueueState, ps: seq<Packet>, last: Packet, o: Outcome) returns (first: Packet)
    requires Chain(c, s, ps, last, o)
    ensures first in s.queue && FrameCount(first) == s.nextFrameCount
  {
    if ps == [] {
      first := last;
    } else {
      first := ps[0];
      assert Alone(s.queue, first, s.nextFrameCount + 0);
    }
  }

  /** The counter cannot wrap around in front of a queued packet. */
  lemma NextCount(c: Config, s: QueueState, top: Packet, ps: seq<Packet>, last: Packet, o: Outcome)
    requires IsTop(s.queue, top) && FrameCount(top) == s.nextFrameCount
    requires Served(c, s, top).Advanced? && Chain(c, Served(c, s, top).next, ps, last, o)
    ensures Served(c, s, top).next.nextFrameCount == s.nextFrameCount + 1
  {
    var first := ChainStart(c, Served(c, s, top).next, ps, last, o);
    assert first in s.queue;
  }

  lemma LinksPrepended(s: QueueState, next: QueueState, top: Packet, ps: seq<Packet>)
    requires top in s.queue && FrameCount(top) == s.nextFrameCount && !top.headerParams.eOFFlag
    requires next.queue == s.queue - multiset{top} && next.nextFrameCount == s.nextFrameCount + 1
    requires NothingStale(next) && Links(next, ps)
    ensures Links(s, [top] + ps)
  {
    var all := [top] + ps;
    forall i | 0 <= i < |all|
      ensures Alone(s.queue, all[i], s.nextFrameCount + i) && !all[i].headerParams.eOFFlag
    {
      if i > 0 {
        assert Alone(next.queue, ps[i - 1], next.nextFrameCount + (i - 1));
        StaysAlone(s.queue, next.queue, top, all[i], s.nextFrameCount + i);
      } else {
        TopAlone(s.queue, next.queue, top);
      }
    }
  }

  lemma ChainPrepended(c: Config, s: QueueState, top: Packet, ps: seq<Packet>, last: Packet, o: Outcome)
    requires IsTop(s.queue, top) && FrameCount(top) == s.nextFrameCount
    requires Served(c, s, top).Advanced? && Chain(c, Served(c, s, top).next, ps, last, o)
    ensures Chain(c, s, [top] + ps, last, o)
  {
    var next := Served(c, s, top).next;
    NextCount(c, s, top, ps, last, o);
    LinksPrepended(s, next, top, ps);
    assert ([top] + ps)[1..] == ps;
  }

  lemma TopAlone(queue: multiset<Packet>, rest: multiset<Packet>, top: Packet)
    requires top in queue && rest == queue - multiset{top}
    requires forall p | p in rest :: FrameCount(top) < FrameCount(p)
    ensures Alone(queue, top, FrameCount(top))
  {
    forall q | q in queue && q != top
      ensures q in rest
    {
    }
  }

  lemma StaysAlone(queue: multiset<Packet>, rest: multiset<Packet>, top: Packet, p: Packet, n: nat)
    requires top in queue && rest == queue - multiset{top} && FrameCount(top) < n && Alone(rest, p, n)
    ensures Alone(queue, p, n)
  {
    forall q | q in queue && q != top
      ensures q in rest
    {
    }
  }

  /** A drain can complete, or throw a given exception, if and only if such a chain is queued. */
  lemma DrainEndsIff(c: Config, s: QueueState, o: Outcome)
    requires o != Incomplete
    ensures (exists t :: Drains(c, s, t, o)) <==> exists ps, last :: Chain(c, s, ps, last, o)
  {
    if t :| Drains(c, s, t, o) {
      var ps, last := DrainIsChain(c, s, t, o);
    }
    if ps, last :| Chain(c, s, ps, last, o) {
      var t := ChainDrains(c, s, ps, last, o);
    }
  }
}
