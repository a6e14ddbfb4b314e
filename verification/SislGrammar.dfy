/** The language the SISL parser accepts, as a context-free grammar given apart from the parser, and
    what each text of it means (src/SislTools/library/BoostSpiritSislParser.cpp). */
module SislGrammar {
  import opened Common
  import opened SislTree
  import opened Decimal
  import opened SislParser

  /** What may stand between any two parts of a text. */
  const WHITE_SPACE: set<char> := {' ', '\t', '\n', '\U{0B}', '\U{0C}', '\r'}

  predicate Blank(s: string) {
    forall c | c in s :: c in WHITE_SPACE
  }

  /** A value is a quoted text or an object in braces. */
  datatype Phrase = InQuotes(gap: string, text: string) | InBraces(gap: string, body: Body)

  datatype Separator = Nothing | Comma(gap: string)

  /** What follows an opening brace: entries, and the closing brace. */
  datatype Body =
    | Closing(gap: string)
    | Entry(separator: Separator, gap: string, key: string, beforeType: string, name: string, value: Phrase, rest: Body)

  /** A phrase, and a body, as they are written in front of more text. */
  function PhraseText(v: Phrase, tail: string): string
    decreases v
  {
    match v
    case InQuotes(gap, text) => gap + ("\"" + (text + ("\"" + tail)))
    case InBraces(gap, body) => gap + ("{" + BodyText(body, tail))
  }

  function BodyText(b: Body, tail: string): string
    decreases b
  {
    match b
    case Closing(gap) => gap + ("}" + tail)
    case Entry(separator, gap, key, beforeType, name, value, rest) =>
      var entry := EntryText(gap, key, beforeType, name, PhraseText(value, BodyText(rest, tail)));
      match separator
      case Nothing => entry
      case Comma(before) => before + ("," + entry)
  }

  function EntryText(gap: string, key: string, beforeType: string, name: string, value: string): string {
    gap + (key + (":" + (beforeType + ("!" + (name + (" " + value))))))
  }

  datatype Place = First | AfterText | AfterObject

  /** A key does not start with white space, a type has no spaces, and only the first entry and one
      after a quoted text can do without a comma. */
  predicate Proper(b: Body, place: Place) {
    match b
    case Closing(gap) => Blank(gap)
    case Entry(separator, gap, key, beforeType, name, value, rest) =>
      && Blank(gap) && IsKey(key) && Blank(beforeType) && IsTypeName(name) && ProperPhrase(value)
      && (match separator
          case Nothing => place != AfterObject
          case Comma(before) => place != First && Blank(before))
      && Proper(rest, if value.InBraces? then AfterObject else AfterText)
  }

  predicate ProperPhrase(v: Phrase) {
    match v
    case InQuotes(gap, text) => Blank(gap) && '"' !in text
    case InBraces(gap, body) => Blank(gap) && Proper(body, First)
  }

  predicate IsKey(key: string) {
    key != "" && key[0] !in WHITE_SPACE && ':' !in key && ',' !in key
  }

  predicate IsTypeName(name: string) {
    name != "" && ' ' !in name
  }

  /** What a text means by its type: one event, none for a type the server does not know, or an
      exception for what is no number. */
  function Meaning(name: string, text: string): Result<seq<Event>> {
    var word := CStr(text);
    match name
    case "str" => Success([Scalar(Str(word))])
    case "bool" => Success([Scalar(Bool(word == "true"))])
    case "null" => Success([Scalar(Null)])
    case "double" => if ReadsAsDouble(word) then Success([Double(word)]) else Failure(OtherError)
    case "int" => Number(word, (n: uint64) => Int(ToInt32(n)))
    case "uint" => Number(word, (n: uint64) => Uint(ToUint32(n)))
    case "int64_t" => Number(word, (n: uint64) => Int64(ToInt64(n)))
    case "uint64_t" => Number(word, (n: uint64) => Uint64(n))
    case _ => Success([])
  }

  function Number(word: string, scalar: uint64 -> Scalar): Result<seq<Event>> {
    match ParseUnsigned(word)
    case Success(n) => Success([Scalar(scalar(n))])
    case Failure(e) => Failure(e)
  }

  function PhraseEvents(v: Phrase, name: string): Result<seq<Event>>
    decreases v
  {
    match v
    case InQuotes(_, text) => Meaning(name, text)
    case InBraces(_, body) =>
      match BodyEvents(body)
      case Success(events) => Success([StartObject] + events + [EndObject(0)])
      case Failure(e) => Failure(e)
  }

  function BodyEvents(b: Body): Result<seq<Event>>
    decreases b
  {
    match b
    case Closing(_) => Success([])
    case Entry(_, _, key, _, name, value, rest) =>
      match PhraseEvents(value, name)
      case Failure(e) => Failure(e)
      case Success(events) =>
        match BodyEvents(rest)
        case Failure(e) => Failure(e)
        case Success(more) => Success([Key(CStr(key))] + events + more)
  }

  /** The parser read what stands before the tail and emitted these events. */
  predicate Yields(r: Parse, st: Storage, tail: string, events: Result<seq<Event>>) {
    match events
    case Failure(e) => r == Raise(e)
    case Success(es) => r.Match? && r.rest == tail && r.storage.events == st.events + es
  }

  lemma {:induction false} SpanConcat(a: string, b: string, stops: set<char>)
    requires forall c | c in a :: c !in stops
    ensures Span(a + b, stops) == |a| + Span(b, stops)
  {
    if a == "" {
      assert a + b == b;
    } else {
      assert (a + b)[0] == a[0] && (a + b)[1..] == a[1..] + b;
      SpanConcat(a[1..], b, stops);
    }
  }

  /** A repetition takes everything up to the first stop. */
  lemma SpanSplit(a: string, b: string, stops: set<char>)
    requires (forall c | c in a :: c !in stops) && b != "" && b[0] in stops
    ensures Span(a + b, stops) == |a| < |a + b| && (a + b)[|a|] == b[0]
    ensures (a + b)[..|a|] == a && (a + b)[|a| + 1..] == b[1..]
  {
    SpanConcat(a, b, stops);
  }

  lemma FirstAndRest(c: char, s: string)
    ensures ([c] + s)[0] == c && ([c] + s)[1..] == s
  {
  }

  lemma {:induction false} SpacesSkipped(gap: string, s: string)
    requires Blank(gap) && (s == "" || s[0] !in WHITE_SPACE)
    ensures DropSpaces(gap + s) == s
    decreases |gap|
  {
    if gap == "" {
      assert gap + s == s;
    } else {
      assert gap[0] in gap;
      assert (gap + s)[0] == gap[0] && (gap + s)[1..] == gap[1..] + s;
      SpacesSkipped(gap[1..], s);
    }
  }

  lemma NameRead(gap: string, key: string, tail: string, st: Storage)
    requires Blank(gap) && IsKey(key)
    ensures Name(gap + (key + (":" + tail)), st) == Match(tail, Emit(st, Key(CStr(key))))
  {
    var s := key + (":" + tail);
    assert s[0] == key[0];
    SpacesSkipped(gap, s);
    FirstAndRest(':', tail);
    SpanSplit(key, ":" + tail, NAME_STOPS);
  }

  lemma TypeRead(gap: string, name: string, tail: string, st: Storage)
    requires Blank(gap) && IsTypeName(name)
    ensures Type(gap + ("!" + (name + (" " + tail))), st) == Match(tail, st.(rType := name))
  {
    var u := name + (" " + tail);
    FirstAndRest('!', u);
    SpacesSkipped(gap, "!" + u);
    FirstAndRest(' ', tail);
    SpanSplit(name, " " + tail, {' '});
  }

  lemma QuotedRead(gap: string, text: string, tail: string, st: Storage)
    requires Blank(gap) && '"' !in text
    ensures QuotedString(gap + ("\"" + (text + ("\"" + tail))), st)
         == match Converted(st, text) case Failure(e) => Raise(e) case Success(next) => Match(tail, next)
  {
    var u := text + ("\"" + tail);
    FirstAndRest('"', u);
    SpacesSkipped(gap, "\"" + u);
    FirstAndRest('"', tail);
    SpanSplit(text, "\"" + tail, {'"'});
  }

  lemma LiteralRead(gap: string, c: char, tail: string)
    requires Blank(gap) && c !in WHITE_SPACE
    ensures Literal(gap + ([c] + tail), c) == Some(tail)
    ensures forall other | other != c :: Literal(gap + ([c] + tail), other) == None
  {
    FirstAndRest(c, tail);
    SpacesSkipped(gap, [c] + tail);
  }

  lemma ConvertedMeans(st: Storage, text: string)
    ensures match Meaning(st.rType, text)
            case Failure(e) => Converted(st, text) == Failure(e)
            case Success(events) => Converted(st, text) == Success(Storage(st.events + events, st.rType))
  {
    assert st.events + [] == st.events;
  }

  /** A name cannot be read here: the first ',' or the end comes before any ':'. */
  predicate NoNameAhead(s: string) {
    var n := Span(s, NAME_STOPS);
    n == |s| || s[n] == ','
  }

  lemma BlankAhead(gap: string, s: string)
    requires Blank(gap)
    ensures NoNameAhead(gap + s) <==> NoNameAhead(s)
  {
    SpanConcat(gap, s, NAME_STOPS);
  }

  /** The greedy name rule at a closing brace runs to the next ',' or the end and gives up without
      an action. */
  lemma BraceIsNoName(gap: string, tail: string, st: Storage)
    requires Blank(gap) && NoNameAhead(tail)
    ensures NoNameAhead(gap + ("}" + tail)) && Name(gap + ("}" + tail), st) == NoMatch(st)
  {
    SpanConcat("}", tail, NAME_STOPS);
    BlankAhead(gap, "}" + tail);
    SpacesSkipped(gap, "}" + tail);
  }

  /** All that the repetition of lists does after one of its groupings. */
  function Continued(s: string, st: Storage): Parse {
    match ListTail(s, st)
    case Match(rest, next) => Lists(rest, next)
    case other => other
  }

  lemma ListsUnfold(s: string, st: Storage)
    ensures match Grouping(s, st)
            case Match(rest, next) => Lists(s, st) == Continued(rest, next)
            case NoMatch(next) => Lists(s, st) == Match(s, next)
            case Raise(e) => Lists(s, st) == Raise(e)
  {
    assert GroupingList(s, st) == match Grouping(s, st)
                                  case Match(rest, next) => ListTail(rest, next)
                                  case other => other;
  }

  lemma ContinuedUnfold(s: string, st: Storage)
    ensures match Literal(s, ',')
            case None => Continued(s, st) == Lists(s, st)
            case Some(after) =>
              match Grouping(after, st)
              case Match(rest, next) => Continued(s, st) == Continued(rest, next)
              case NoMatch(next) => Continued(s, st) == Lists(s, next)
              case Raise(e) => Continued(s, st) == Raise(e)
  {
  }

  /** What the repetition leaves: the closing brace, with the white space before it. */
  function Close(b: Body, tail: string): string {
    match b
    case Closing(gap) => gap + ("}" + tail)
    case Entry(_, _, _, _, _, _, rest) => Close(rest, tail)
  }

  function PlaceAfter(v: Phrase): Place {
    if v.InBraces? then AfterObject else AfterText
  }

  /** After an object comes a comma, or the enclosing object's closing brace. */
  lemma NoNameAfterObject(b: Body, tail: string)
    requires Proper(b, AfterObject) && NoNameAhead(tail)
    ensures NoNameAhead(BodyText(b, tail))
  {
    match b
    case Closing(gap) => BraceIsNoName(gap, tail, Storage([], ""));
    case Entry(separator, gap, key, beforeType, name, value, rest) =>
      var entry := EntryText(gap, key, beforeType, name, PhraseText(value, BodyText(rest, tail)));
      BlankAhead(separator.gap, "," + entry);
  }

  lemma {:induction false} PhraseParsed(v: Phrase, tail: string, st: Storage)
    requires ProperPhrase(v) && (v.InBraces? ==> NoNameAhead(tail))
    ensures Yields(SislValue(PhraseText(v, tail), st), st, tail, PhraseEvents(v, st.rType))
    decreases v, 2
  {
    match v
    case InQuotes(gap, text) =>
      QuotedRead(gap, text, tail, st);
      ConvertedMeans(st, text);
    case InBraces(gap, body) =>
      LiteralRead(gap, '{', BodyText(body, tail));
      SpacesSkipped(gap, "{" + BodyText(body, tail));
      ObjectParsed(gap, body, tail, st);
  }

  /** An object in braces, with white space before it. */
  lemma {:induction false} ObjectParsed(gap: string, body: Body, tail: string, st: Storage)
    requires Blank(gap) && Proper(body, First) && NoNameAhead(tail)
    ensures Yields(Sisl(gap + ("{" + BodyText(body, tail)), st), st, tail, PhraseEvents(InBraces(gap, body), st.rType))
    decreases body, 2
  {
    var started := Emit(st, StartObject);
    LiteralRead(gap, '{', BodyText(body, tail));
    BodyParsed(body, tail, started);
    if BodyEvents(body).Success? {
      ClosingRead(body, First, tail);
      AroundBody(st.events, BodyEvents(body).value);
    }
  }

  lemma ClosingRead(b: Body, place: Place, tail: string)
    requires Proper(b, place)
    ensures Literal(Close(b, tail), '}') == Some(tail)
  {
    match b
    case Closing(gap) => LiteralRead(gap, '}', tail);
    case Entry(_, _, _, _, _, value, rest) => ClosingRead(rest, PlaceAfter(value), tail);
  }

  lemma AroundBody(before: seq<Event>, events: seq<Event>)
    ensures before + [StartObject] + events + [EndObject(0)] == before + ([StartObject] + events + [EndObject(0)])
  {
  }

  /** One entry, without what separates it from the last one. */
  lemma {:induction false} EntryParsed(
    gap: string, key: string, beforeType: string, name: string, value: Phrase, rest: Body, tail: string, st: Storage)
    requires Blank(gap) && IsKey(key) && Blank(beforeType) && IsTypeName(name) && ProperPhrase(value)
    requires Proper(rest, PlaceAfter(value)) && NoNameAhead(tail)
    ensures var text := EntryText(gap, key, beforeType, name, PhraseText(value, BodyText(rest, tail)));
            match PhraseEvents(value, name)
            case Failure(e) => Grouping(text, st) == Raise(e)
            case Success(es) => Yields(Grouping(text, st), st, BodyText(rest, tail), Success([Key(CStr(key))] + es))
    decreases value, 3
  {
    var after := BodyText(rest, tail);
    var typed := Emit(st, Key(CStr(key))).(rType := name);
    NameRead(gap, key, beforeType + ("!" + (name + (" " + PhraseText(value, after)))), st);
    TypeRead(beforeType, name, PhraseText(value, after), Emit(st, Key(CStr(key))));
    if value.InBraces? {
      NoNameAfterObject(rest, tail);
    }
    PhraseParsed(value, after, typed);
    if PhraseEvents(value, name).Success? {
      KeyFirst(st.events, Key(CStr(key)), PhraseEvents(value, name).value);
    }
  }

  lemma KeyFirst(before: seq<Event>, key: Event, events: seq<Event>)
    ensures before + [key] + events == before + ([key] + events)
  {
  }

  lemma EntryGoesOn(st: Storage, first: Storage, es: seq<Event>, r: Parse, tail: string, more: Result<seq<Event>>)
    requires first.events == st.events + es && Yields(r, first, tail, more)
    ensures Yields(r, st, tail, match more case Success(ms) => Success(es + ms) case Failure(e) => Failure(e))
  {
    if more.Success? {
      assert st.events + es + more.value == st.events + (es + more.value);
    }
  }

  /** No comma stands at the front of an entry without one. */
  lemma NoCommaRead(gap: string, key: string, tail: string)
    requires Blank(gap) && IsKey(key)
    ensures Literal(gap + (key + tail), ',') == None
  {
    assert (key + tail)[0] == key[0] && key[0] in key;
    SpacesSkipped(gap, key + tail);
  }

  lemma {:induction false} BodyParsed(b: Body, tail: string, st: Storage)
    requires Proper(b, First) && NoNameAhead(tail)
    ensures Yields(Lists(BodyText(b, tail), st), st, Close(b, tail), BodyEvents(b))
    decreases b, 1
  {
    var s := BodyText(b, tail);
    ListsUnfold(s, st);
    match b
    case Closing(gap) =>
      BraceIsNoName(gap, tail, st);
      assert st.events + [] == st.events;
    case Entry(_, gap, key, beforeType, name, value, rest) =>
      EntryParsed(gap, key, beforeType, name, value, rest, tail, st);
      if PhraseEvents(value, name).Success? {
        var first := Grouping(s, st).storage;
        RestParsed(rest, PlaceAfter(value), tail, first);
        EntryGoesOn(st, first, [Key(CStr(key))] + PhraseEvents(value, name).value,
          Continued(BodyText(rest, tail), first), Close(b, tail), BodyEvents(rest));
      }
  }

  lemma CommaContinues(gap: string, entry: string, st: Storage)
    requires Blank(gap)
    ensures match Grouping(entry, st)
            case Match(rest, next) => Continued(gap + ("," + entry), st) == Continued(rest, next)
            case NoMatch(_) => true
            case Raise(e) => Continued(gap + ("," + entry), st) == Raise(e)
  {
    LiteralRead(gap, ',', entry);
    ContinuedUnfold(gap + ("," + entry), st);
  }

  lemma BareContinues(gap: string, key: string, tail: string, st: Storage)
    requires Blank(gap) && IsKey(key)
    ensures var s := gap + (key + tail);
            match Grouping(s, st)
            case Match(rest, next) => Continued(s, st) == Continued(rest, next)
            case NoMatch(_) => true
            case Raise(e) => Continued(s, st) == Raise(e)
  {
    NoCommaRead(gap, key, tail);
    ContinuedUnfold(gap + (key + tail), st);
    ListsUnfold(gap + (key + tail), st);
  }

  lemma ClosingContinues(gap: string, tail: string, st: Storage)
    requires Blank(gap) && NoNameAhead(tail)
    ensures Yields(Continued(gap + ("}" + tail), st), st, gap + ("}" + tail), Success([]))
  {
    var s := gap + ("}" + tail);
    LiteralRead(gap, '}', tail);
    ContinuedUnfold(s, st);
    ListsUnfold(s, st);
    BraceIsNoName(gap, tail, st);
    assert st.events + [] == st.events;
  }

  lemma {:induction false} RestParsed(b: Body, place: Place, tail: string, st: Storage)
    requires Proper(b, place) && place != First && NoNameAhead(tail)
    ensures Yields(Continued(BodyText(b, tail), st), st, Close(b, tail), BodyEvents(b))
    decreases b, 1
  {
    match b
    case Closing(gap) =>
      ClosingContinues(gap, tail, st);
    case Entry(separator, gap, key, beforeType, name, value, rest) =>
      var entry := EntryText(gap, key, beforeType, name, PhraseText(value, BodyText(rest, tail)));
      EntryParsed(gap, key, beforeType, name, value, rest, tail, st);
      if separator.Nothing? {
        var typed := "!" + (name + (" " + PhraseText(value, BodyText(rest, tail))));
        BareContinues(gap, key, ":" + (beforeType + typed), st);
      } else {
        CommaContinues(separator.gap, entry, st);
      }
      if PhraseEvents(value, name).Success? {
        var first := Grouping(entry, st).storage;
        RestParsed(rest, PlaceAfter(value), tail, first);
        EntryGoesOn(st, first, [Key(CStr(key))] + PhraseEvents(value, name).value,
          Continued(BodyText(rest, tail), first), Close(b, tail), BodyEvents(rest));
      }
  }

  /** A text of the grammar: an object without white space before it, and white space after it. */
  predicate Derives(input: string, body: Body, trailing: string) {
    input == "{" + BodyText(body, trailing) && Proper(body, First) && Blank(trailing)
  }

  lemma BlankEnds(s: string)
    requires Blank(s)
    ensures DropSpaces(s) == "" && NoNameAhead(s)
  {
    assert s + "" == s;
    SpacesSkipped(s, "");
    BlankAhead(s, "");
  }

  /** Every text of the grammar is parsed to its meaning, the first number that is none included. */
  lemma DerivedParses(input: string, body: Body, trailing: string)
    requires Derives(input, body, trailing)
    ensures match BodyEvents(body)
            case Success(events) => ParseSisl(input) == Success([StartObject] + events + [EndObject(0)])
            case Failure(e) => ParseSisl(input) == Failure(e)
  {
    BlankEnds(trailing);
    var st := Storage([], "");
    assert "" + ("{" + BodyText(body, trailing)) == input;
    ObjectParsed("", body, trailing, st);
    if BodyEvents(body).Success? {
      var events := [StartObject] + BodyEvents(body).value + [EndObject(0)];
      assert [] + events == events;
    }
  }
}
