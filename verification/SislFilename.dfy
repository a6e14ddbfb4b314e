/** The file name in the end-of-file frame, as the client writes it and the server accepts it
    (src/server/SISLFilename.cpp, src/client/Client.cpp). */
module SislFilename {
  import opened Common
  import opened EnterpriseDiode
  import opened SislTree
  import opened Decimal
  import opened SislPrinter
  import opened SislParser
  import opened SislGrammar
  import opened SislAcceptance
  import opened SislRoundTrip

  datatype Lookup = Found(text: string) | NotText | Absent

  const MAX_SISL_LENGTH: nat := 65
  const MAX_FILENAME_LENGTH: nat := 1000

  function AsText(b: BytesBuffer): (s: string)
    ensures |s| == |b| && forall i | 0 <= i < |b| :: s[i] as int == b[i] as int
  {
    seq(|b|, i requires 0 <= i < |b| => FromByte(b[i]) as char)
  }

  predicate ByteSized(s: string) {
    forall i | 0 <= i < |s| :: s[i] as int < 256
  }

  function AsBytes(s: string): (b: BytesBuffer)
    requires ByteSized(s)
    ensures |b| == |s|
  {
    seq(|s|, i requires 0 <= i < |s| => ToByte(s[i] as int))
  }

  predicate FilterChar(c: char) {
    'a' <= c <= 'z' || 'A' <= c <= 'Z' || '0' <= c <= '9' || c == '.' || c == '-' || c == '_'
  }

  /** regex_match with [a-zA-Z0-9\.\-_]+ */
  predicate MatchesFilter(s: string) {
    s != "" && forall c | c in s :: FilterChar(c)
  }

  /** The members of a JSON object written from events. The writer tells names from values by
      position alone, so a name event in value position becomes a string. A double has no place
      in the tree; Null stands for it, being no string either, but for an infinity or a NaN nothing
      is written. None: no JSON object results. */
  function Written(events: seq<Event>): (r: Option<(Members, seq<Event>)>)
    ensures r.Some? ==> |r.value.1| < |events|
    decreases |events|
  {
    if events == [] then None
    else if events[0].EndObject? then Some((NoMembers, events[1..]))
    else if |events| < 2 || !IsText(events[0]) then None
    else
      var key := TextOf(events[0]);
      match events[1]
      case StartObject =>
        (match Written(events[2..])
         case None => None
         case Some((inner, after)) =>
           match Written(after)
           case None => None
           case Some((rest, remaining)) => Some((Member(key, Object(inner), rest), remaining)))
      case EndObject(_) => None
      case StartArray => None
      case Double(text) =>
        if NamesNoNumber(Unsigned(text)) then None
        else (match Written(events[2..])
              case None => None
              case Some((rest, remaining)) => Some((Member(key, Leaf(Null), rest), remaining)))
      case _ =>
        match Written(events[2..])
        case None => None
        case Some((rest, remaining)) => Some((Member(key, Leaf(LeafOf(events[1])), rest), remaining))
  }

  predicate IsText(e: Event) {
    e.Key? || (e.Scalar? && e.scalar.Str?)
  }

  function TextOf(e: Event): string
    requires IsText(e)
  {
    if e.Key? then e.key else e.scalar.s
  }

  function LeafOf(e: Event): Scalar {
    match e
    case Key(key) => Str(key)
    case Scalar(s) => s
    case _ => Null
  }

  function Document(events: seq<Event>): Option<Members> {
    if events == [] || !events[0].StartObject? then None
    else match Written(events[1..])
      case Some((m, rest)) => if rest == [] then Some(m) else None
      case None => None
  }

  /** The first member called "name". */
  function FindName(m: Members): Lookup {
    match m
    case NoMembers => Absent
    case Member(key, value, rest) =>
      if key != "name" then FindName(rest)
      else match value
        case Leaf(Str(s)) => Found(s)
        case _ => NotText
  }

  function ExtractFilename(maxSislLength: nat, maxFilenameLength: nat, eofFrame: BytesBuffer): Extraction {
    var sislHeader := AsText(eofFrame);
    if |sislHeader| > maxSislLength || |sislHeader| < 2 then Extracted(None)
    else if sislHeader[0] != '{' then Extracted(None)
    else match ParseSisl(sislHeader)
      case Failure(RuntimeError) => Extracted(None)   // rethrown as UnableToParseSislException
      case Failure(OtherError) => Raised
      case Success(events) =>
        match Document(events)
        case None => Raised
        case Some(document) =>
          match FindName(document)
          case NotText => Raised
          case Absent => Checked("", maxFilenameLength)
          case Found(filename) => Checked(filename, maxFilenameLength)
  }

  function Checked(filename: string, maxFilenameLength: nat): Extraction {
    if |filename| > maxFilenameLength then Extracted(None)
    else Extracted(if MatchesFilter(filename) then Some(filename) else None)
  }

  /** The extraction the server is built with. */
  ghost predicate ServerExtraction(extractFilename: BytesBuffer -> Extraction) {
    forall eofFrame: BytesBuffer ::
      extractFilename(eofFrame) == ExtractFilename(MAX_SISL_LENGTH, MAX_FILENAME_LENGTH, eofFrame)
  }

  /** The client's check of the base name of its file. */
  predicate ClientAccepts(filename: string) {
    MatchesFilter(filename) && |filename| <= 65
  }

  function FilenameAsSisl(filename: string): (text: string)
    ensures MatchesFilter(filename) ==> ByteSized(text)
  {
    var text := "{name: !str \"" + filename + "\"}";
    assert MatchesFilter(filename) ==> ByteSized(text) by {
      assert forall i | 0 <= i < |filename| :: filename[i] in filename;
    }
    text
  }

  function EofPayload(filename: string): BytesBuffer
    requires MatchesFilter(filename)
  {
    AsBytes(FilenameAsSisl(filename))
  }

  lemma TextRoundTrip(s: string)
    requires ByteSized(s)
    ensures AsText(AsBytes(s)) == s
  {
    forall i | 0 <= i < |s|
      ensures AsText(AsBytes(s))[i] == s[i]
    {
      ByteRoundTrip(s[i] as int);
    }
  }

  function NameTree(filename: string): Members {
    Member("name", Leaf(Str(filename)), NoMembers)
  }

  lemma SislParts(filename: string)
    ensures "{" + ("name" + ": " + ("!" + "str" + " \"" + filename + "\"")) + "}" == FilenameAsSisl(filename)
  {
    var parts := "{" + ("name" + ": " + ("!" + "str" + " \"" + filename + "\"")) + "}";
    var front := "{" + ("name" + ": " + ("!" + "str" + " \""));
    assert front == "{name: !str \"";
    assert parts == front + filename + ("\"" + "}");
    assert "\"" + "}" == "\"}";
  }

  lemma NameIsClean(filename: string)
    requires MatchesFilter(filename)
    ensures CleanText(filename) && Clean(NameTree(filename))
  {
    assert !FilterChar('"') && !FilterChar('\0');
  }

  lemma NameRendered(filename: string)
    requires '\0' !in filename
    ensures RenderObject(NameTree(filename))
         == "{" + ("name" + ": " + ("!" + "str" + " \"" + filename + "\"")) + "}"
  {
    CStrClean(filename);
    CStrClean("name");
    assert RenderMembers(NameTree(filename)) == RenderMember("name", Leaf(Str(filename)));
  }

  lemma FilenameIsRendered(filename: string)
    requires MatchesFilter(filename)
    ensures FilenameAsSisl(filename) == RenderObject(NameTree(filename)) && Clean(NameTree(filename))
  {
    NameIsClean(filename);
    NameRendered(filename);
    SislParts(filename);
  }

  function ClosedEvents(m: Members, tail: seq<Event>): seq<Event> {
    MemberEvents(m, false) + [EndObject(0)] + tail
  }

  /** Where the value and the rest stand among the events of a member. */
  lemma ClosedUnfold(key: string, value: Value, rest: Members, tail: seq<Event>)
    ensures match value
            case Leaf(s) =>
              ClosedEvents(Member(key, value, rest), tail) == [Key(key), Scalar(s)] + ClosedEvents(rest, tail)
            case Object(inner) =>
              ClosedEvents(Member(key, value, rest), tail)
                == [Key(key), StartObject] + ClosedEvents(inner, ClosedEvents(rest, tail))
  {
    MemberEventsUnfold(key, value, rest);
    var after, end := MemberEvents(rest, false), [EndObject(0)];
    match value
    case Leaf(s) => LeafFirst(Key(key), Scalar(s), after, end, tail);
    case Object(inner) => ObjectFirst(Key(key), StartObject, MemberEvents(inner, false), end, after, tail);
  }

  lemma LeafFirst(k: Event, v: Event, after: seq<Event>, end: seq<Event>, tail: seq<Event>)
    ensures [k] + [v] + after + end + tail == [k, v] + (after + end + tail)
  {
    assert [k] + [v] == [k, v];
  }

  lemma ObjectFirst(k: Event, v: Event, body: seq<Event>, end: seq<Event>, after: seq<Event>, tail: seq<Event>)
    ensures [k] + ([v] + body + end) + after + end + tail == [k, v] + (body + end + (after + end + tail))
  {
    assert [k] + ([v] + body + end) == [k, v] + (body + end);
    assert [k, v] + (body + end) + after + end + tail == [k, v] + ((body + end) + after + end + tail);
    assert (body + end) + after + end + tail == body + end + (after + end + tail);
  }

  lemma {:induction false} WrittenInverts(m: Members, tail: seq<Event>)
    ensures Written(ClosedEvents(m, tail)) == Some((m, tail))
    decreases m
  {
    match m
    case NoMembers =>
      assert ClosedEvents(m, tail) == [EndObject(0)] + tail;
    case Member(key, value, rest) =>
      ClosedUnfold(key, value, rest, tail);
      WrittenInverts(rest, tail);
      match value
      case Leaf(s) =>
        assert ClosedEvents(m, tail)[2..] == ClosedEvents(rest, tail);
      case Object(inner) =>
        WrittenInverts(inner, ClosedEvents(rest, tail));
        assert ClosedEvents(m, tail)[2..] == ClosedEvents(inner, ClosedEvents(rest, tail));
  }

  /** The JSON document the server looks into is the tree the SISL text renders. */
  lemma DocumentOfRendered(m: Members)
    requires Clean(m)
    ensures ParseSisl(RenderObject(m)).Success? && Document(ParseSisl(RenderObject(m)).value) == Some(m)
  {
    ParseRenderedIff(m);
    WrittenInverts(m, []);
    AfterStart(m);
  }

  lemma AfterStart(m: Members)
    ensures ObjectEvents(m, false)[0] == StartObject && ObjectEvents(m, false)[1..] == ClosedEvents(m, [])
  {
  }

  /** Whatever the limits, a name the client's filter passes is extracted unchanged when its
      SISL text, 15 characters longer, and the name itself are within them, and rejected
      otherwise. */
  lemma ExtractedWithinLimits(filename: string, maxSislLength: nat, maxFilenameLength: nat)
    requires MatchesFilter(filename)
    ensures ExtractFilename(maxSislLength, maxFilenameLength, EofPayload(filename))
         == Extracted(
              if |filename| + 15 <= maxSislLength && |filename| <= maxFilenameLength then Some(filename) else None)
  {
    var text := FilenameAsSisl(filename);
    TextRoundTrip(text);
    FilenameIsRendered(filename);
    DocumentOfRendered(NameTree(filename));
    assert text[0] == '{' && |text| == |filename| + 15;
  }

  /** With the server's own limits a name survives if and only if it has at most 50 characters,
      although the client accepts up to 65. */
  lemma FilenameSurvivesIff(filename: string)
    requires ClientAccepts(filename)
    ensures ExtractFilename(MAX_SISL_LENGTH, MAX_FILENAME_LENGTH, EofPayload(filename))
         == Extracted(if |filename| <= 50 then Some(filename) else None)
  {
    ExtractedWithinLimits(filename, MAX_SISL_LENGTH, MAX_FILENAME_LENGTH);
  }

  /** What a file name may consist of. */
  predicate IsFilename(s: string) {
    s != "" && forall c | c in s :: Listed(c)
  }

  predicate Listed(c: char) {
    || c in {'a', 'b', 'c', 'd', 'e', 'f', 'g', 'h', 'i', 'j', 'k', 'l', 'm'}
    || c in {'n', 'o', 'p', 'q', 'r', 's', 't', 'u', 'v', 'w', 'x', 'y', 'z'}
    || c in {'A', 'B', 'C', 'D', 'E', 'F', 'G', 'H', 'I', 'J', 'K', 'L', 'M'}
    || c in {'N', 'O', 'P', 'Q', 'R', 'S', 'T', 'U', 'V', 'W', 'X', 'Y', 'Z'}
    || c in {'0', '1', '2', '3', '4', '5', '6', '7', '8', '9', '.', '-', '_'}
  }

  lemma FilterListed(c: char)
    ensures FilterChar(c) <==> Listed(c)
  {
  }

  lemma FilterIff(s: string)
    ensures MatchesFilter(s) <==> IsFilename(s)
  {
    forall c | c in s
      ensures FilterChar(c) <==> Listed(c)
    {
      FilterListed(c);
    }
  }

  /** Which base names the client accepts. */
  lemma ClientAcceptsIff(filename: string)
    ensures ClientAccepts(filename) <==> IsFilename(filename) && |filename| <= 65
  {
    FilterIff(filename);
  }

  /** An event that names a member, and one that gives it a value that is no object. */
  predicate NamesMember(e: Event, key: string) {
    e == Key(key) || e == Scalar(Str(key))
  }

  predicate GivesValue(e: Event, s: Scalar) {
    match e
    case Key(key) => s == Str(key)
    case Scalar(t) => s == t
    case Double(text) => s == Null && !NamesNoNumber(Unsigned(text))
    case _ => false
  }

  /** Events that write the members of an object and its end, in front of others. */
  ghost predicate WritesOut(events: seq<Event>, m: Members, tail: seq<Event>)
    decreases m
  {
    match m
    case NoMembers => exists count :: events == [EndObject(count)] + tail
    case Member(key, Leaf(s), rest) =>
      |events| >= 2 && NamesMember(events[0], key) && GivesValue(events[1], s) && WritesOut(events[2..], rest, tail)
    case Member(key, Object(inner), rest) =>
      && |events| >= 2 && NamesMember(events[0], key) && events[1] == StartObject
      && exists after :: WritesOut(events[2..], inner, after) && WritesOut(after, rest, tail)
  }

  lemma {:induction false} WrittenWritesOut(events: seq<Event>, m: Members, tail: seq<Event>)
    requires Written(events) == Some((m, tail))
    ensures WritesOut(events, m, tail)
    decreases |events|
  {
    if events[0].EndObject? {
      assert events == [EndObject(events[0].memberCount)] + tail;
    } else {
      match m
      case Member(key, Leaf(s), rest) => WrittenWritesOut(events[2..], rest, tail);
      case Member(key, Object(inner), rest) =>
        var after := Written(events[2..]).value.1;
        WrittenWritesOut(events[2..], inner, after);
        WrittenWritesOut(after, rest, tail);
    }
  }

  lemma {:induction false} WritesOutWritten(events: seq<Event>, m: Members, tail: seq<Event>)
    requires WritesOut(events, m, tail)
    ensures Written(events) == Some((m, tail))
    decreases m
  {
    match m
    case NoMembers =>
      var count :| events == [EndObject(count)] + tail;
      assert events[1..] == tail;
    case Member(key, Leaf(s), rest) => WritesOutWritten(events[2..], rest, tail);
    case Member(key, Object(inner), rest) =>
      var after :| WritesOut(events[2..], inner, after) && WritesOut(after, rest, tail);
      WritesOutWritten(events[2..], inner, after);
      WritesOutWritten(after, rest, tail);
  }

  /** The object that a phrase of the grammar means to the server. */
  ghost predicate Means(body: Body, m: Members) {
    var events := PhraseEvents(InBraces("", body), "");
    events.Success? && events.value != [] && events.value[0] == StartObject && WritesOut(events.value[1..], m, [])
  }

  lemma MeansDocument(input: string, body: Body, trailing: string, m: Members)
    requires Derives(input, body, trailing) && Means(body, m)
    ensures ParseSisl(input).Success? && Document(ParseSisl(input).value) == Some(m)
  {
    DerivedParses(input, body, trailing);
    WritesOutWritten(ParseSisl(input).value[1..], m, []);
  }

  lemma DocumentIsMeant(input: string, m: Members) returns (body: Body, trailing: string)
    requires ParseSisl(input).Success? && Document(ParseSisl(input).value) == Some(m)
    ensures Derives(input, body, trailing) && Means(body, m)
  {
    body, trailing := ParsedDerives(input);
    WrittenWritesOut(ParseSisl(input).value[1..], m, []);
  }

  /** The value of the first member called "name", and that there is none. */
  predicate FirstNamed(m: Members, value: Value) {
    m.Member? && if m.key == "name" then m.value == value else FirstNamed(m.rest, value)
  }

  predicate NoneNamed(m: Members) {
    m.Member? ==> m.key != "name" && NoneNamed(m.rest)
  }

  lemma {:induction false} FoundIff(m: Members)
    ensures NoneNamed(m) <==> FindName(m) == Absent
    ensures forall value | FirstNamed(m, value) ::
      FindName(m) == if value.Leaf? && value.scalar.Str? then Found(value.scalar.s) else NotText
    ensures FindName(m) != Absent ==> exists value :: FirstNamed(m, value)
  {
    if m.Member? {
      if m.key == "name" {
        assert FirstNamed(m, m.value);
      } else {
        FoundIff(m.rest);
        if value :| FirstNamed(m.rest, value) {
          assert FirstNamed(m, value);
        }
      }
    }
  }

  /** Texts that the server does not look into, or that are not SISL, give no name. */
  lemma RejectedTexts(maxSislLength: nat, maxFilenameLength: nat, eofFrame: BytesBuffer)
    requires || |eofFrame| > maxSislLength || |eofFrame| < 2 || eofFrame[0] != 0x7b
             || ParseSisl(AsText(eofFrame)) == Failure(RuntimeError)
    ensures ExtractFilename(maxSislLength, maxFilenameLength, eofFrame) == Extracted(None)
  {
    if |eofFrame| >= 2 && eofFrame[0] != 0x7b {
      assert AsText(eofFrame)[0] as int == eofFrame[0] as int;
      OpeningByte(eofFrame[0]);
    }
  }

  lemma OpeningByte(b: byte)
    requires b != 0x7b
    ensures b as int != '{' as int
  {
  }

  /** What the server makes of an object that it looks into: the text of its first member called
      "name", if that is a file name and not too long; no name if it is neither or there is no such
      member; and an exception if the member is no text. */
  lemma ExtractedFromObject(
    maxSislLength: nat, maxFilenameLength: nat, eofFrame: BytesBuffer, body: Body, trailing: string, m: Members)
    requires |eofFrame| <= maxSislLength && Derives(AsText(eofFrame), body, trailing) && Means(body, m)
    ensures var r := ExtractFilename(maxSislLength, maxFilenameLength, eofFrame);
            && (NoneNamed(m) ==> r == Extracted(None))
            && forall value | FirstNamed(m, value) ::
                 r == if !(value.Leaf? && value.scalar.Str?) then Raised
                      else if IsFilename(value.scalar.s) && |value.scalar.s| <= maxFilenameLength
                      then Extracted(Some(value.scalar.s))
                      else Extracted(None)
  {
    MeansDocument(AsText(eofFrame), body, trailing, m);
    AtLeastTwo(AsText(eofFrame), body, trailing);
    FoundIff(m);
    forall value | FirstNamed(m, value) && value.Leaf? && value.scalar.Str?
      ensures MatchesFilter(value.scalar.s) <==> IsFilename(value.scalar.s)
    {
      FilterIff(value.scalar.s);
    }
  }

  lemma AtLeastTwo(input: string, body: Body, trailing: string)
    requires Derives(input, body, trailing)
    ensures |input| >= 2 && input[0] == '{'
  {
    BodyNotEmpty(body, trailing);
  }

  lemma {:induction false} BodyNotEmpty(b: Body, tail: string)
    ensures BodyText(b, tail) != ""
  {
  }

  lemma NameHasSource(maxSislLength: nat, maxFilenameLength: nat, eofFrame: BytesBuffer, name: string)
    returns (body: Body, trailing: string, m: Members)
    requires ExtractFilename(maxSislLength, maxFilenameLength, eofFrame) == Extracted(Some(name))
    ensures |eofFrame| <= maxSislLength && |name| <= maxFilenameLength && IsFilename(name)
    ensures Derives(AsText(eofFrame), body, trailing) && Means(body, m) && FirstNamed(m, Leaf(Str(name)))
  {
    FilterIff(name);
    m := Document(ParseSisl(AsText(eofFrame)).value).value;
    body, trailing := DocumentIsMeant(AsText(eofFrame), m);
    FoundIff(m);
    var value :| FirstNamed(m, value);
  }

  /** Which bytes give which name, exactly. */
  lemma ExtractedIff(maxSislLength: nat, maxFilenameLength: nat, eofFrame: BytesBuffer, name: string)
    ensures ExtractFilename(maxSislLength, maxFilenameLength, eofFrame) == Extracted(Some(name))
       <==> && |eofFrame| <= maxSislLength && |name| <= maxFilenameLength && IsFilename(name)
            && exists body, trailing, m ::
                 Derives(AsText(eofFrame), body, trailing) && Means(body, m) && FirstNamed(m, Leaf(Str(name)))
  {
    if ExtractFilename(maxSislLength, maxFilenameLength, eofFrame) == Extracted(Some(name)) {
      var body, trailing, m := NameHasSource(maxSislLength, maxFilenameLength, eofFrame, name);
    } else if |eofFrame| <= maxSislLength && |name| <= maxFilenameLength && IsFilename(name) {
      if body, trailing, m :|
        Derives(AsText(eofFrame), body, trailing) && Means(body, m) && FirstNamed(m, Leaf(Str(name)))
      {
        ExtractedFromObject(maxSislLength, maxFilenameLength, eofFrame, body, trailing, m);
      }
    }
  }
}
