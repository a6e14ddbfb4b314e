/** Which datagrams stop the server: those that make an exception escape from its packet handler. */
module Escapes {
  import opened Common
  import opened EnterpriseDiode
  import opened CloakedDagger
  import opened Rewrapping
  import opened SislTree
  import opened SislParser
  import opened SislGrammar
  import opened SislLexical
  import opened SislFilename
  import opened Reordering
  import opened Ordering
  import opened Sessions
  import opened DrainChains

  /** A packet that the program does not survive, when its turn comes: an end of file from whose
      text no name can be extracted without an exception other than std::runtime_error, or, on an
      import diode, an unwrapped data frame without data. */
  predicate Poisonous(c: Config, p: Packet) {
    if p.headerParams.eOFFlag then c.extractFilename(p.payload) == Raised
    else c.diodeType.Import? && p.headerParams.cloakedDaggerHeader[0] != IDENTIFIER_BYTE && p.payload == []
  }

  /** The rewrapper's state has no part in that. */
  lemma PoisonousIff(c: Config, rewrapper: RewrapState, p: Packet)
    ensures EndsWith(c, rewrapper, p, Threw(OtherError)) <==> Poisonous(c, p)
  {
  }

  /** From the queued packets: nothing stale is queued, the frames ps come next, each queued once,
      and can be written, and then it is the turn of a poisonous packet. */
  ghost predicate PoisonNext(c: Config, s: QueueState, ps: seq<Packet>, poison: Packet) {
    && NothingStale(s) && Links(s, ps)
    && poison in s.queue && FrameCount(poison) == s.nextFrameCount + |ps| && Poisonous(c, poison)
    && Rewrapper(c.diodeType, s.rewrapper, ps, s.nextFrameCount).Success?
  }

  ghost predicate HoldsPoison(c: Config, s: QueueState) {
    exists ps, poison :: PoisonNext(c, s, ps, poison)
  }

  lemma DrainEscapesIff(c: Config, s: QueueState)
    ensures (exists t :: Drains(c, s, t, Threw(OtherError))) <==> HoldsPoison(c, s)
  {
    DrainEndsIff(c, s, Threw(OtherError));
    if ps, last :| Chain(c, s, ps, last, Threw(OtherError)) {
      PoisonousIff(c, Rewrapper(c.diodeType, s.rewrapper, ps, s.nextFrameCount).value, last);
      assert PoisonNext(c, s, ps, last);
    }
    if ps, poison :| PoisonNext(c, s, ps, poison) {
      PoisonousIff(c, Rewrapper(c.diodeType, s.rewrapper, ps, s.nextFrameCount).value, poison);
      assert Chain(c, s, ps, poison, Threw(OtherError));
    }
  }

  /** The packet's session is live or new, is not given up now, and with the packet in its queue, if
      that has room, it holds poison next. */
  ghost predicate Stops(c: ServerConfig, m: ManagerState, a: Arrival) {
    var packet := ParsePacket(a.datagram);
    && packet.Success?
    && var p := packet.value;
       var w := Opened(m, SessionOf(p), a.now).streams[SessionOf(p)];
       !Expired(c, w, a.now) && HoldsPoison(c.queue, Enqueued(c.queue, w.queue, p))
  }

  /** In any state, an exception can escape from the handling of a datagram if and only if the drain
      it starts gets to a poisonous packet, told from the packets that are queued. */
  lemma EscapesIff(c: ServerConfig, m: ManagerState, a: Arrival)
    ensures (exists next :: Receives(c, m, a.datagram, a.now, next, true)) <==> Stops(c, m, a)
  {
    if ParsePacket(a.datagram).Success? {
      var p := ParsePacket(a.datagram).value;
      var id := SessionOf(p);
      var m1 := Opened(m, id, a.now);
      var q := m1.streams[id].queue;
      DrainEscapesIff(c.queue, Enqueued(c.queue, q, p));
      if next :| Receives(c, m, a.datagram, a.now, next, true) {
        assert WritesToStream(c, m, p, a.now, next, Some(OtherError));
        EscapeDrains(c, m, p, a.now, next);
      }
      if Stops(c, m, a) {
        var t :| Drains(c.queue, Enqueued(c.queue, q, p), t, Threw(OtherError));
        var w := WriterState(t, a.now);
        assert WriterWrites(c.queue, m1.streams[id], p, a.now, w, Threw(OtherError));
        var next := Settled(m1, id, w, Threw(OtherError));
        assert WritesToStream(c, m, p, a.now, next, Some(OtherError));
        assert Receives(c, m, a.datagram, a.now, next, true);
      }
    }
  }

  lemma EscapeDrains(c: ServerConfig, m: ManagerState, p: Packet, now: int, next: ManagerState)
    requires WritesToStream(c, m, p, now, next, Some(OtherError))
    ensures var w := Opened(m, SessionOf(p), now).streams[SessionOf(p)];
            !Expired(c, w, now) && exists t :: Drains(c.queue, Enqueued(c.queue, w.queue, p), t, Threw(OtherError))
  {
    var w, o :| WriterWrites(c.queue, Opened(m, SessionOf(p), now).streams[SessionOf(p)], p, now, w, o)
      && Some(OtherError) == Thrown(o);
  }

  /** A run goes on exactly past arrivals from which nothing escapes: in a quiet run none of them can
      only stop the server. */
  lemma StoppedForGood(c: ServerConfig, states: seq<ManagerState>, arrivals: seq<Arrival>, i: nat)
    requires Run(c, states, arrivals) && i < |arrivals|
    requires forall next :: !Receives(c, states[i], arrivals[i].datagram, arrivals[i].now, next, false)
    ensures i + 1 == |arrivals|
  {
    StepOfRun(c, states, arrivals, i);
  }

  const INTEGER_TYPES: set<string> := {"uint", "int", "uint64_t", "int64_t"}

  lemma NoNumberMeans(name: string, space: string, sign: string, rest: string)
    requires name in INTEGER_TYPES && '\0' !in space + (sign + rest)
    requires Leads(space, sign, rest) && (rest == "" || rest[0] !in "0123456789")
    ensures Meaning(name, space + (sign + rest)) == Failure(OtherError)
  {
    CStrClean(space + (sign + rest));
    NoNumberRead(space, sign, rest);
  }

  /** A text of the grammar with an entry, of an integer type, that starts with no number after white
      space and a sign: the parser throws what nobody on the server's side catches. */
  lemma NoNumberRaises(
    input: string, body: Body, trailing: string, space: string, sign: string, rest: string)
    requires Derives(input, body, trailing) && body.Entry? && body.name in INTEGER_TYPES
    requires body.value.InQuotes? && body.value.text == space + (sign + rest) && '\0' !in body.value.text
    requires Leads(space, sign, rest) && (rest == "" || rest[0] !in "0123456789")
    ensures ParseSisl(input) == Failure(OtherError)
  {
    NoNumberMeans(body.name, space, sign, rest);
    DerivedParses(input, body, trailing);
  }

  const POISON_TEXT: string := "{a: !int \"\"}"

  /** The one entry of that text. */
  function PoisonBody(): Body {
    Entry(Nothing, "", "a", " ", "int", InQuotes("", ""), Closing(""))
  }

  lemma PoisonText()
    ensures Derives(POISON_TEXT, PoisonBody(), "")
  {
    var value := PhraseText(InQuotes("", ""), BodyText(Closing(""), ""));
    assert value == "\"\"}";
    assert "int" + (" " + value) == "int \"\"}";
    assert "!" + ("int" + (" " + value)) == "!int \"\"}";
    assert ":" + (" " + ("!" + ("int" + (" " + value)))) == ": !int \"\"}";
    assert EntryText("", "a", " ", "int", value) == "a: !int \"\"}";
    assert POISON_TEXT == "{" + BodyText(PoisonBody(), "");
  }

  lemma PoisonTextRaises()
    ensures RaisingText(POISON_TEXT)
  {
    PoisonText();
    assert "" + ("" + "") == "";
    NoNumberRaises(POISON_TEXT, PoisonBody(), "", "", "", "");
    PoisonTextFits();
  }

  lemma PoisonTextFits()
    ensures ByteSized(POISON_TEXT) && |POISON_TEXT| == 12 && POISON_TEXT[0] == '{'
  {
  }

  /** Frame 1 of a session, an end of file with this text. */
  function EofPacket(sessionId: uint32, text: string): Packet
    requires ByteSized(text)
  {
    Packet(HeaderParams(sessionId, 1, true, Zeros(48)), AsBytes(text))
  }

  function EofFrame(sessionId: uint32, text: string): Datagram
    requires ByteSized(text)
  {
    Datagram(ClientHeader(sessionId, 1, true), AsBytes(text))
  }

  /** A text of 2 to 65 characters that starts like SISL and makes the parser throw. */
  predicate RaisingText(text: string) {
    ByteSized(text) && 2 <= |text| <= MAX_SISL_LENGTH && text[0] == '{' && ParseSisl(text) == Failure(OtherError)
  }

  lemma RaisingIsPoisonous(c: Config, sessionId: uint32, text: string)
    requires ServerExtraction(c.extractFilename) && RaisingText(text)
    ensures ParsePacket(EofFrame(sessionId, text)) == Success(EofPacket(sessionId, text))
    ensures Poisonous(c, EofPacket(sessionId, text))
  {
    HeaderRoundTrip(sessionId, 1, true);
    RaisingTextRaises(text);
  }

  lemma RaisingTextRaises(text: string)
    requires RaisingText(text)
    ensures ExtractFilename(MAX_SISL_LENGTH, MAX_FILENAME_LENGTH, AsBytes(text)) == Raised
  {
    TextRoundTrip(text);
  }

  /** One datagram with such a text stops every server that has no session of that id yet and queues
      anything at all, whatever its other sessions are doing. */
  lemma OneDatagramStops(
    c: ServerConfig, states: seq<ManagerState>, arrivals: seq<Arrival>, i: nat, sessionId: uint32, text: string)
    requires ServerExtraction(c.queue.extractFilename) && c.queue.maxQueueLength >= 1 && RaisingText(text)
    requires Run(c, states, arrivals) && i < |arrivals|
    requires arrivals[i].datagram == EofFrame(sessionId, text) && sessionId !in states[i].streams
    ensures Stops(c, states[i], arrivals[i]) && i + 1 == |arrivals|
  {
    RaisingIsPoisonous(c.queue, sessionId, text);
    var m, a, p := states[i], arrivals[i], EofPacket(sessionId, text);
    var e := Enqueued(c.queue, INITIAL_QUEUE, p);
    assert e.queue == multiset{p};
    assert PoisonNext(c.queue, e, [], p);
    forall next
      ensures !Receives(c, m, a.datagram, a.now, next, false)
    {
      OnlyPoison(c, m, p, a.now, next);
    }
    StoppedForGood(c, states, arrivals, i);
  }

  lemma OnlyPoison(c: ServerConfig, m: ManagerState, p: Packet, now: int, next: ManagerState)
    requires c.queue.maxQueueLength >= 1 && SessionOf(p) !in m.streams && FrameCount(p) == 1
    requires Poisonous(c.queue, p) && p.headerParams.eOFFlag
    ensures !exists thrown :: WritesToStream(c, m, p, now, next, thrown) && thrown != Some(OtherError)
  {
    if thrown :| WritesToStream(c, m, p, now, next, thrown) && thrown != Some(OtherError) {
      var id, m1 := SessionOf(p), Opened(m, SessionOf(p), now);
      var w, o :| WriterWrites(c.queue, m1.streams[id], p, now, w, o)
        && next == Settled(m1, id, w, o) && thrown == Thrown(o);
      FirstDrain(c.queue, p, w.queue, o);
    }
  }

  /** A new session's queue with nothing but a poisonous end of file. */
  lemma FirstDrain(c: Config, p: Packet, t: QueueState, o: Outcome)
    requires c.maxQueueLength >= 1 && FrameCount(p) == 1 && Poisonous(c, p) && p.headerParams.eOFFlag
    requires Writes(c, INITIAL_QUEUE, p, t, o)
    ensures o == Threw(OtherError)
  {
    var e := Enqueued(c, INITIAL_QUEUE, p);
    assert e.queue == multiset{p};
    assert IsTop(e.queue, p);
    var top := DrainTurn(c, e, t, o);
  }

  function PoisonDatagram(): Datagram {
    PoisonTextFits();
    EofFrame(9, POISON_TEXT)
  }

  /** For instance session 9's frame 1 with a text that asks for an integer and gives none. */
  lemma PoisonStops(c: ServerConfig, states: seq<ManagerState>, arrivals: seq<Arrival>, i: nat)
    requires ServerExtraction(c.queue.extractFilename) && c.queue.maxQueueLength >= 1
    requires Run(c, states, arrivals) && i < |arrivals| && 9 !in states[i].streams
    requires arrivals[i].datagram == PoisonDatagram()
    ensures i + 1 == |arrivals|
  {
    PoisonTextRaises();
    OneDatagramStops(c, states, arrivals, i, 9, POISON_TEXT);
  }
}
