/** What one session's queue may do when it is fed nothing but frames of one numbered
    transfer, in any order, any number of times. */
module Transfers {
  import opened Common
  import opened EnterpriseDiode
  import opened CloakedDagger
  import opened Rewrapping
  import opened Streams
  import opened Reordering

  /** Frames counted from 1, of which the last one alone is the end of file. */
  predicate Numbered(fs: seq<Packet>) {
    && 0 < |fs| < TWO_32
    && forall i | 0 <= i < |fs| :: FrameCount(fs[i]) == i + 1 && (fs[i].headerParams.eOFFlag <==> i == |fs| - 1)
  }

  /** A packet that is one of the frames. */
  predicate Genuine(fs: seq<Packet>, p: Packet) {
    1 <= FrameCount(p) <= |fs| && p == fs[FrameCount(p) - 1]
  }

  /** The rewrapper's state and the bytes written after frames 1, 2, ... in order. */
  function Emitted(d: DiodeType, fs: seq<Packet>): Result<(RewrapState, BytesBuffer)>
    requires |fs| < TWO_32
  {
    if fs == [] then Success((INITIAL, []))
    else match Emitted(d, fs[..|fs| - 1])
      case Failure(e) => Failure(e)
      case Success((rewrapper, output)) =>
        match FrameOutput(d, rewrapper, fs[|fs| - 1], |fs|)
        case Failure(e) => Failure(e)
        case Success((next, more)) => Success((next, output + more))
  }

  function Payloads(fs: seq<Packet>): BytesBuffer {
    if fs == [] then [] else Payloads(fs[..|fs| - 1]) + fs[|fs| - 1].payload
  }

  /** Only genuine frames are queued, and the stream holds the output of frames 1 up to the one
      before the next. */
  ghost predicate Safe(c: Config, fs: seq<Packet>, s: QueueState)
    requires |fs| < TWO_32
  {
    && 1 <= s.nextFrameCount <= |fs|
    && (forall p | p in s.queue :: Genuine(fs, p))
    && OnlyWrites(s.calls)
    && Emitted(c.diodeType, fs[..s.nextFrameCount - 1]) == Success((s.rewrapper, Content(s.calls)))
  }

  /** The stream holds the output of every data frame and has then been given its name. */
  ghost predicate WholeAndNamed(c: Config, fs: seq<Packet>, calls: seq<Call>)
    requires 0 < |fs| < TWO_32
  {
    && |calls| > 0
    && OnlyWrites(calls[..|calls| - 1])
    && calls[|calls| - 1].SetStoredFilename?
    && StoredName(c, fs[|fs| - 1].payload) == Success(calls[|calls| - 1].name)
    && Emitted(c.diodeType, fs[..|fs| - 1]).Success?
    && Emitted(c.diodeType, fs[..|fs| - 1]).value.1 == Content(calls[..|calls| - 1])
  }

  lemma EmittedStep(d: DiodeType, fs: seq<Packet>, k: nat)
    requires k < |fs| < TWO_32
    ensures Emitted(d, fs[..k + 1]) == match Emitted(d, fs[..k])
            case Failure(e) => Failure(e)
            case Success((rewrapper, output)) =>
              match FrameOutput(d, rewrapper, fs[k], k + 1)
              case Failure(e) => Failure(e)
              case Success((next, more)) => Success((next, output + more))
  {
    assert fs[..k + 1][..k] == fs[..k];
  }

  lemma AdvanceKeepsSafe(c: Config, fs: seq<Packet>, s: QueueState, top: Packet)
    requires Numbered(fs) && Safe(c, fs, s)
    requires top in s.queue && FrameCount(top) == s.nextFrameCount
    requires Served(c, s, top).Advanced?
    ensures Safe(c, fs, Served(c, s, top).next)
  {
    var k := s.nextFrameCount - 1;
    assert Genuine(fs, top) && top == fs[k];
    var output := FrameOutput(c.diodeType, s.rewrapper, top, s.nextFrameCount).value.1;
    EmittedStep(c.diodeType, fs, k);
    ContentAppend(s.calls, Write(output));
  }

  lemma FinishIsWhole(c: Config, fs: seq<Packet>, s: QueueState, top: Packet)
    requires Numbered(fs) && Safe(c, fs, s)
    requires top in s.queue && FrameCount(top) == s.nextFrameCount
    requires Served(c, s, top).Finished?
    ensures WholeAndNamed(c, fs, Served(c, s, top).last.calls)
  {
    var calls := Served(c, s, top).last.calls;
    assert Genuine(fs, top) && top == fs[s.nextFrameCount - 1];
    assert calls[..|calls| - 1] == s.calls;
  }

  /** However the drain goes, the queue stays safe, and when it reports completion the stream
      is whole and named. */
  lemma {:induction false} DrainKeepsSafe(c: Config, fs: seq<Packet>, s: QueueState, t: QueueState, o: Outcome)
    requires Numbered(fs) && Safe(c, fs, s) && Drains(c, s, t, o)
    ensures o == Complete ==> WholeAndNamed(c, fs, t.calls)
    ensures o != Complete ==> Safe(c, fs, t)
    decreases |s.queue|
  {
    if Ready(s) {
      var top := DrainTurn(c, s, t, o);
      match Served(c, s, top)
      case Advanced(next) =>
        AdvanceKeepsSafe(c, fs, s, top);
        DrainKeepsSafe(c, fs, next, t, o);
      case Finished(_) =>
        FinishIsWhole(c, fs, s, top);
      case Failed(_) =>
    } else {
      DrainStopped(c, s, t, o);
    }
  }

  /** One genuine packet more, dropped or queued. */
  lemma WriteKeepsSafe(c: Config, fs: seq<Packet>, s: QueueState, p: Packet, t: QueueState, o: Outcome)
    requires Numbered(fs) && Safe(c, fs, s) && Genuine(fs, p) && Writes(c, s, p, t, o)
    ensures o == Complete ==> WholeAndNamed(c, fs, t.calls)
    ensures o != Complete ==> Safe(c, fs, t)
  {
    DrainKeepsSafe(c, fs, Enqueued(c, s, p), t, o);
  }

  lemma InitiallySafe(c: Config, fs: seq<Packet>)
    requires Numbered(fs)
    ensures Safe(c, fs, INITIAL_QUEUE)
  {
    assert fs[..0] == [];
  }

  /** The basic diode writes the payloads as they are. */
  lemma {:induction false} BasicEmitsPayloads(fs: seq<Packet>)
    requires |fs| < TWO_32
    ensures Emitted(Basic, fs) == Success((INITIAL, Payloads(fs)))
  {
    if fs != [] {
      BasicEmitsPayloads(fs[..|fs| - 1]);
    }
  }

  /** A frame that the sender's diode has not wrapped. */
  predicate Plain(p: Packet) {
    p.headerParams.cloakedDaggerHeader[0] != IDENTIFIER_BYTE
  }

  /** What an import diode lets pass unwrapped: data that starts like SISL or a bitmap. */
  predicate StartsReadably(data: BytesBuffer) {
    data != [] && (data[0] == 0x7b || data[0] == 0x42)
  }

  lemma PlainOutput(d: DiodeType, rewrapper: RewrapState, p: Packet, n: uint32)
    requires Plain(p)
    ensures FrameOutput(d, rewrapper, p, n).Success? <==> d.Basic? || StartsReadably(p.payload)
    ensures FrameOutput(d, rewrapper, p, n).Success? ==> FrameOutput(d, rewrapper, p, n).value == (rewrapper, p.payload)
  {
  }

  predicate AllStartReadably(fs: seq<Packet>) {
    forall p | p in fs :: StartsReadably(p.payload)
  }

  lemma ReadableStep(fs: seq<Packet>)
    requires fs != []
    ensures AllStartReadably(fs) <==> AllStartReadably(fs[..|fs| - 1]) && StartsReadably(fs[|fs| - 1].payload)
  {
    assert forall p :: p in fs <==> p in fs[..|fs| - 1] || p == fs[|fs| - 1];
  }

  /** Plain frames are written as they are if they are written, and all are if and only if the diode
      is a basic one or each starts readably. */
  lemma {:induction false} PlainEmits(d: DiodeType, fs: seq<Packet>)
    requires |fs| < TWO_32 && forall p | p in fs :: Plain(p)
    ensures Emitted(d, fs) == Success((INITIAL, Payloads(fs))) || Emitted(d, fs).Failure?
    ensures Emitted(d, fs).Success? <==> d.Basic? || AllStartReadably(fs)
  {
    if fs != [] {
      var last := fs[|fs| - 1];
      PlainEmits(d, fs[..|fs| - 1]);
      ReadableStep(fs);
      PlainOutput(d, INITIAL, last, |fs|);
    }
  }

  /** Outputs only grow. */
  lemma {:induction false} EmittedGrows(d: DiodeType, fs: seq<Packet>, k: nat)
    requires k <= |fs| < TWO_32 && Emitted(d, fs).Success?
    ensures Emitted(d, fs[..k]).Success? && Emitted(d, fs[..k]).value.1 <= Emitted(d, fs).value.1
    decreases |fs|
  {
    if k == |fs| {
      assert fs[..k] == fs;
    } else {
      var front := fs[..|fs| - 1];
      EmittedGrows(d, front, k);
      assert front[..k] == fs[..k];
    }
  }

  lemma {:induction false} PayloadsConcat(a: seq<Packet>, b: seq<Packet>)
    ensures Payloads(a + b) == Payloads(a) + Payloads(b)
    decreases |b|
  {
    if b == [] {
      assert a + b == a;
    } else {
      assert (a + b)[..|a + b| - 1] == a + b[..|b| - 1];
      PayloadsConcat(a, b[..|b| - 1]);
    }
  }
}
