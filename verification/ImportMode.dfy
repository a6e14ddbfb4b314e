/** Import mode: re-keying through reordering preserves the meaning of a wrapped transfer. */
module ImportMode {
  import opened Common
  import opened EnterpriseDiode
  import opened CloakedDagger
  import opened Rewrapping
  import opened Unwrapping
  import opened Streams
  import opened Reordering
  import opened Sessions
  import opened Transfers
  import opened Completion
  import opened EndToEndSafety

  function HeaderOf(p: Packet): CloakedDaggerHeader {
    p.headerParams.cloakedDaggerHeader
  }

  /** Frames each wrapped under a valid header, with any keys and any lengths. */
  predicate AllWrapped(fs: seq<Packet>) {
    forall p | p in fs :: ValidHeader(HeaderOf(p))
  }

  /** What was wrapped: each frame decrypted from offset 0 under its own key. */
  function Plaintext(fs: seq<Packet>): BytesBuffer {
    if fs == [] then []
    else
      var last := fs[|fs| - 1];
      Plaintext(fs[..|fs| - 1]) + Xor(last.payload, Key(HeaderOf(last)), 0)
  }

  /** One stream under the first frame's header and key. */
  function UnderFirstKey(fs: seq<Packet>): (RewrapState, BytesBuffer)
    requires fs != []
  {
    var header, plaintext := HeaderOf(fs[0]), Plaintext(fs);
    (RewrapState(Key(header), |plaintext| % TWO_64), header + Xor(plaintext, Key(header), 0))
  }

  lemma FirstFrameEmits(p: Packet)
    requires ValidHeader(HeaderOf(p))
    ensures FrameOutput(Import, INITIAL, p, 1) == Success(UnderFirstKey([p]))
  {
    ValidHeaderBytes(HeaderOf(p));
    var key := Key(HeaderOf(p));
    assert [p][..0] == [];
    assert Plaintext([p]) == Xor(p.payload, key, 0);
    XorInvolutive(p.payload, key, 0);
  }

  /** One more frame of a stream under the first frame's key. */
  function More(front: seq<Packet>, p: Packet): BytesBuffer
    requires front != []
  {
    Xor(Xor(p.payload, Key(HeaderOf(p)), 0), Key(HeaderOf(front[0])), |Plaintext(front)|)
  }

  lemma PlaintextGrows(front: seq<Packet>, p: Packet)
    ensures Plaintext(front + [p]) == Plaintext(front) + Xor(p.payload, Key(HeaderOf(p)), 0)
  {
    assert (front + [p])[..|front|] == front;
  }

  lemma Appended(a: BytesBuffer, b: BytesBuffer, c: BytesBuffer)
    ensures a + (b + c) == a + b + c
  {
  }

  /** The stream under one key, extended by one frame's plaintext. */
  lemma RewrappedGrows(front: seq<Packet>, p: Packet)
    requires front != []
    ensures UnderFirstKey(front + [p])
         == (RewrapState(Key(HeaderOf(front[0])), (|Plaintext(front)| + |p.payload|) % TWO_64),
             UnderFirstKey(front).1 + More(front, p))
  {
    var header, plain := HeaderOf(front[0]), Xor(p.payload, Key(HeaderOf(p)), 0);
    PlaintextGrows(front, p);
    XorConcat(Plaintext(front), plain, Key(header), 0);
    Appended(header, Xor(Plaintext(front), Key(header), 0), More(front, p));
  }

  /** A wrapped frame after the first is re-keyed. */
  lemma WrappedFrameOutput(s: RewrapState, p: Packet, n: uint32)
    requires ValidHeader(HeaderOf(p)) && n != 1 && s.mask != Zeros(8)
    ensures FrameOutput(Import, s, p, n) == Success(Rekeyed(s, p.payload, CombinedMaskBytes(s, Key(HeaderOf(p)))))
  {
    ValidHeaderBytes(HeaderOf(p));
  }

  lemma RekeyedGrows(front: seq<Packet>, p: Packet)
    requires front != []
    ensures var s := UnderFirstKey(front).0;
            Rekeyed(s, p.payload, CombinedMaskBytes(s, Key(HeaderOf(p))))
              == (UnderFirstKey(front + [p]).0, More(front, p))
    ensures UnderFirstKey(front + [p]).1 == UnderFirstKey(front).1 + More(front, p)
  {
    RekeyRefinesDecryptEncrypt(UnderFirstKey(front).0, |Plaintext(front)|, p.payload, Key(HeaderOf(p)));
    RewrappedGrows(front, p);
  }

  /** The output for one more frame continues the stream encrypted under the first key. */
  lemma NextFrameEmits(front: seq<Packet>, p: Packet, n: uint32)
    requires front != [] && ValidHeader(HeaderOf(p)) && n != 1
    requires Key(HeaderOf(front[0])) != Zeros(8)
    ensures var r := FrameOutput(Import, UnderFirstKey(front).0, p, n);
            r.Success? && UnderFirstKey(front + [p]) == (r.value.0, UnderFirstKey(front).1 + r.value.1)
  {
    WrappedFrameOutput(UnderFirstKey(front).0, p, n);
    RekeyedGrows(front, p);
  }

  /** All frames of a wrapped transfer are accepted, as one stream under the first key, if and
      only if there is a single one or the first key is not all zeros. */
  lemma {:induction false} WrappedEmits(fs: seq<Packet>)
    requires fs != [] && |fs| < TWO_32 && AllWrapped(fs)
    ensures if |fs| == 1 || Key(HeaderOf(fs[0])) != Zeros(8) then Emitted(Import, fs) == Success(UnderFirstKey(fs))
            else Emitted(Import, fs) == Failure(RuntimeError)
    decreases |fs|
  {
    var n := |fs| - 1;
    var front, last := fs[..n], fs[n];
    assert front + [last] == fs;
    if n == 0 {
      assert fs == [last];
      FirstFrameEmits(last);
      assert front == [] && [] + UnderFirstKey(fs).1 == UnderFirstKey(fs).1;
    } else {
      WrappedEmits(front);
      ValidHeaderBytes(HeaderOf(last));
      assert front[0] == fs[0];
      if Key(HeaderOf(fs[0])) != Zeros(8) {
        NextFrameEmits(front, last, |fs|);
      }
    }
  }

  /** The stream written for a prefix of a wrapped transfer unwraps to the prefix's plaintext. */
  predicate Unwraps(content: BytesBuffer, fs: seq<Packet>) {
    if fs == [] then content == []
    else HEADER_SIZE <= |content| && Unwrapped(content) == Success(Plaintext(fs))
  }

  lemma EmittedUnwraps(fs: seq<Packet>, content: BytesBuffer)
    requires |fs| < TWO_32 && AllWrapped(fs) && EmittedIs(Import, fs, content)
    ensures Unwraps(content, fs)
  {
    if fs != [] {
      WrappedEmits(fs);
      UnwrapEncrypted(HeaderOf(fs[0]), Plaintext(fs));
    }
  }

  ghost predicate UnwrapsToPrefix(fs: seq<Packet>, content: BytesBuffer) {
    exists k | 0 <= k < |fs| :: Unwraps(content, fs[..k])
  }

  lemma PrefixUnwraps(c: Config, fs: seq<Packet>, calls: seq<Call>)
    requires c.diodeType == Import && 0 < |fs| < TWO_32 && AllWrapped(fs[..|fs| - 1]) && HoldsPrefix(c, fs, calls)
    ensures UnwrapsToPrefix(fs, Content(calls))
  {
    var k :| 0 <= k < |fs| && EmittedIs(c.diodeType, fs[..k], Content(calls));
    assert fs[..k] <= fs[..|fs| - 1];
    EmittedUnwraps(fs[..k], Content(calls));
  }

  /** A renamed stream: its content unwraps to all of the plaintext. */
  ghost predicate WholePlaintext(fs: seq<Packet>, calls: seq<Call>)
    requires fs != []
  {
    && |calls| >= 2 && calls[|calls| - 1] == RenameFile
    && OnlyWrites(calls[..|calls| - 2])
    && Unwraps(Content(calls[..|calls| - 2]), fs[..|fs| - 1])
  }

  lemma ClosedUnwraps(c: Config, fs: seq<Packet>, calls: seq<Call>)
    requires c.diodeType == Import && 0 < |fs| < TWO_32 && AllWrapped(fs[..|fs| - 1]) && ClosedWell(c, fs, calls)
    ensures calls[|calls| - 1] == RenameFile ==> WholePlaintext(fs, calls)
    ensures calls[|calls| - 1] != RenameFile ==> UnwrapsToPrefix(fs, Content(calls[..|calls| - 1]))
    ensures calls[|calls| - 1] == RenameFile && |fs| > 2 ==> Key(HeaderOf(fs[0])) != Zeros(8)
  {
    var front, last := calls[..|calls| - 1], calls[|calls| - 1];
    if last == RenameFile {
      var content := Content(front[..|front| - 1]);
      assert front[..|front| - 1] == calls[..|calls| - 2];
      assert EmittedIs(Import, fs[..|fs| - 1], content);
      EmittedUnwraps(fs[..|fs| - 1], content);
      if |fs| > 1 {
        WrappedEmits(fs[..|fs| - 1]);
      }
    } else {
      PrefixUnwraps(c, fs, front);
    }
  }

  /** In every run in import mode, over transfers of separately wrapped data frames delivered in
      any order, lost or repeated: unwrapping a live or deleted stream gives the concatenated
      plaintext of a prefix of the frames, unwrapping a renamed stream gives all of it, and no
      transfer of two or more data frames whose first key is zero is ever renamed. */
  lemma ImportModePreservesMeaning(
    c: ServerConfig, ts: TransferMap, states: seq<ManagerState>, arrivals: seq<Arrival>, i: nat)
    requires c.queue.diodeType == Import && ValidTransfers(ts) && Run(c, states, arrivals) && i < |states|
    requires forall id | id in ts :: AllWrapped(ts[id][..|ts[id]| - 1])
    requires forall a | a in arrivals :: Deliverable(ts, a)
    ensures forall id | id in states[i].streams ::
      id in ts && UnwrapsToPrefix(ts[id], Content(states[i].streams[id].queue.calls))
    ensures forall r | r in states[i].closed ::
      && r.sessionId in ts && |r.calls| > 0
      && var fs := ts[r.sessionId];
         if r.calls[|r.calls| - 1] == RenameFile then
           WholePlaintext(fs, r.calls) && (|fs| > 2 ==> Key(HeaderOf(fs[0])) != Zeros(8))
         else UnwrapsToPrefix(fs, Content(r.calls[..|r.calls| - 1]))
  {
    RunSafe(c, ts, states, arrivals, i);
    var m := states[i];
    forall id | id in m.streams
      ensures id in ts && UnwrapsToPrefix(ts[id], Content(m.streams[id].queue.calls))
    {
      SafeHoldsPrefix(c.queue, ts[id], m.streams[id].queue);
      PrefixUnwraps(c.queue, ts[id], m.streams[id].queue.calls);
    }
    forall r | r in m.closed
      ensures r.sessionId in ts && ClosedWell(c.queue, ts[r.sessionId], r.calls)
      ensures r.calls[|r.calls| - 1] == RenameFile ==> WholePlaintext(ts[r.sessionId], r.calls)
      ensures r.calls[|r.calls| - 1] == RenameFile && |ts[r.sessionId]| > 2
              ==> Key(HeaderOf(ts[r.sessionId][0])) != Zeros(8)
      ensures r.calls[|r.calls| - 1] != RenameFile
              ==> UnwrapsToPrefix(ts[r.sessionId], Content(r.calls[..|r.calls| - 1]))
    {
      ClosedUnwraps(c.queue, ts[r.sessionId], r.calls);
    }
  }

  /** A wrapped transfer can be delivered if and only if its name can be stored and its first key is
      not all zeros, which matters from the second data frame on. */
  lemma WrappedAcceptableIff(c: Config, fs: seq<Packet>)
    requires c.diodeType == Import && Numbered(fs) && AllWrapped(fs[..|fs| - 1])
    ensures Acceptable(c, fs)
       <==> StoredName(c, fs[|fs| - 1].payload).Success? && (|fs| <= 2 || Key(HeaderOf(fs[0])) != Zeros(8))
  {
    var data := fs[..|fs| - 1];
    if data != [] {
      WrappedEmits(data);
      assert data[0] == fs[0];
    }
  }

  lemma NamedWholeUnwraps(c: Config, fs: seq<Packet>, calls: seq<Call>)
    requires c.diodeType == Import && Numbered(fs) && AllWrapped(fs[..|fs| - 1]) && WholeAndNamed(c, fs, calls)
    ensures WholePlaintext(fs, calls + [RenameFile])
  {
    var all := calls + [RenameFile];
    assert all[..|all| - 1] == calls;
    ClosedUnwraps(c, fs, all);
  }

  /** A data frame that claims to be wrapped but has no valid header. */
  predicate Misheaded(p: Packet) {
    !p.headerParams.eOFFlag && HeaderOf(p)[0] == 0xd1 && !HasFixedBytes(HeaderOf(p))
  }

  /** A transfer with such a frame throws when its turn comes ... */
  lemma MisheadedNotAcceptable(c: Config, fs: seq<Packet>, k: nat)
    requires c.diodeType == Import && Numbered(fs) && k < |fs| && Misheaded(fs[k])
    ensures !Acceptable(c, fs)
  {
    var data := fs[..|fs| - 1];
    if Emitted(Import, data).Success? {
      EmittedGrows(Import, data, k);
      EmittedGrows(Import, data, k + 1);
      EmittedStep(Import, data, k);
      RefusedIff(Emitted(Import, data[..k]).value.0, fs[k].payload, HeaderOf(fs[k]), k + 1);
    }
  }

  /** ... and is never renamed, whatever the network does and in every state of every run. */
  lemma MisheadedNeverRenamed(
    c: ServerConfig, ts: TransferMap, states: seq<ManagerState>, arrivals: seq<Arrival>, i: nat, r: Record, k: nat)
    requires c.queue.diodeType == Import && ValidTransfers(ts) && Run(c, states, arrivals) && i < |states|
    requires forall a | a in arrivals :: Deliverable(ts, a)
    requires r in states[i].closed && r.sessionId in ts && k < |ts[r.sessionId]| && Misheaded(ts[r.sessionId][k])
    ensures |r.calls| > 0 && r.calls[|r.calls| - 1] == DeleteFile
  {
    RunSafe(c, ts, states, arrivals, i);
    MisheadedNotAcceptable(c.queue, ts[r.sessionId], k);
  }
}
