/** The names under which files are stored, over every run, with the server's own extraction and
    whatever arrives. */
module StoredNames {
  import opened Common
  import opened EnterpriseDiode
  import opened Streams
  import opened Reordering
  import opened Ordering
  import opened Sessions
  import opened SislGrammar
  import opened SislFilename
  import opened SislTree
  import LifeCycle

  /** The replacement name, or one of letters, digits, '.', '-' and '_' that some end-of-file frame
      gives as the text of its object's first member called "name". */
  ghost predicate Storable(name: string) {
    name == "rejected." || (IsFilename(name) && |name| <= 1000 && exists eofFrame :: NamedIn(eofFrame, name))
  }

  ghost predicate NamedIn(eofFrame: BytesBuffer, name: string) {
    && |eofFrame| <= 65
    && exists body, trailing, m ::
         Derives(AsText(eofFrame), body, trailing) && Means(body, m) && FirstNamed(m, Leaf(Str(name)))
  }

  ghost predicate NamesStorable(calls: seq<Call>) {
    forall call | call in calls && call.SetStoredFilename? :: Storable(call.name)
  }

  ghost predicate AllStorable(m: ManagerState) {
    && (forall id | id in m.streams :: NamesStorable(m.streams[id].queue.calls))
    && (forall r | r in m.closed :: NamesStorable(r.calls))
  }

  /** The name given to a stream, whatever the end-of-file frame. */
  lemma StoredIsStorable(c: Config, eofFrame: BytesBuffer)
    requires ServerExtraction(c.extractFilename) && StoredName(c, eofFrame).Success?
    ensures Storable(StoredName(c, eofFrame).value)
  {
    var name := StoredName(c, eofFrame).value;
    if name != "rejected." {
      ExtractedIff(MAX_SISL_LENGTH, MAX_FILENAME_LENGTH, eofFrame, name);
      assert NamedIn(eofFrame, name);
    }
  }

  lemma {:induction false} DrainNames(c: Config, s: QueueState, t: QueueState, o: Outcome)
    requires ServerExtraction(c.extractFilename) && NamesStorable(s.calls) && Drains(c, s, t, o)
    ensures NamesStorable(t.calls)
    decreases |s.queue|
  {
    if Ready(s) {
      var top := DrainTurn(c, s, t, o);
      if StoredName(c, top.payload).Success? {
        StoredIsStorable(c, top.payload);
      }
      match Served(c, s, top)
      case Advanced(next) => DrainNames(c, next, t, o);
      case Finished(last) =>
      case Failed(_) =>
    } else {
      DrainStopped(c, s, t, o);
    }
  }

  lemma OpenedNames(m: ManagerState, id: uint32, now: int)
    requires AllStorable(m)
    ensures AllStorable(Opened(m, id, now))
  {
  }

  lemma ClosedNames(m: ManagerState, id: uint32, call: Call)
    requires AllStorable(m) && id in m.streams && !call.SetStoredFilename?
    ensures AllStorable(Closed(m, id, call))
  {
  }

  lemma SettledNames(m: ManagerState, id: uint32, w: WriterState, o: Outcome)
    requires AllStorable(m) && id in m.streams && NamesStorable(w.queue.calls)
    ensures AllStorable(Settled(m, id, w, o))
  {
    var written := m.(streams := m.streams[id := w]);
    assert AllStorable(written);
    if o == Complete {
      ClosedNames(written, id, RenameFile);
    }
  }

  lemma StepNames(c: ServerConfig, m: ManagerState, a: Arrival, next: ManagerState)
    requires ServerExtraction(c.queue.extractFilename) && AllStorable(m) && Steps(c, m, a, next, true)
    ensures AllStorable(next)
  {
    if ParsePacket(a.datagram).Success? {
      var p := ParsePacket(a.datagram).value;
      var thrown :| WritesToStream(c, m, p, a.now, next, thrown);
      var id, m1 := SessionOf(p), Opened(m, SessionOf(p), a.now);
      OpenedNames(m, id, a.now);
      if Expired(c, m1.streams[id], a.now) {
        ClosedNames(m1, id, DeleteFile);
      } else {
        var w, o :| WriterWrites(c.queue, m1.streams[id], p, a.now, w, o)
          && next == Settled(m1, id, w, o) && thrown == Thrown(o);
        DrainNames(c.queue, Enqueued(c.queue, m1.streams[id].queue, p), w.queue, o);
        SettledNames(m1, id, w, o);
      }
    }
  }

  /** In every state of every run, whatever arrives: every name ever given to a stream is storable,
      and so is the one under which a renamed stream is stored. */
  lemma {:induction false} NamesAreStorable(
    c: ServerConfig, states: seq<ManagerState>, arrivals: seq<Arrival>, i: nat)
    requires ServerExtraction(c.queue.extractFilename) && Run(c, states, arrivals) && i < |states|
    ensures AllStorable(states[i])
    ensures forall r | r in states[i].closed && LifeCycle.Renamed(r.calls) :: Storable(r.calls[|r.calls| - 2].name)
  {
    if i > 0 {
      NamesAreStorable(c, states, arrivals, i - 1);
      StepOfRun(c, states, arrivals, i - 1);
      StepNames(c, states[i - 1], arrivals[i - 1], states[i]);
    }
  }
}
