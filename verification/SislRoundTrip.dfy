/** Printing an object tree as SISL and parsing it again, as it was printed or with white space. */
module SislRoundTrip {
  import opened Common
  import opened SislTree
  import opened Decimal
  import opened SislPrinter
  import opened SislParser
  import opened SislGrammar
  import opened SislAcceptance

  predicate CleanKey(key: string) {
    IsKey(key) && '\0' !in key
  }

  predicate CleanText(text: string) {
    '"' !in text && '\0' !in text
  }

  predicate CleanScalar(s: Scalar) {
    s.Str? ==> CleanText(s.s)
  }

  /** Keys and strings that SISL has room for: it has no escapes. */
  predicate Clean(m: Members) {
    match m
    case NoMembers => true
    case Member(key, Leaf(s), rest) => CleanKey(key) && CleanScalar(s) && Clean(rest)
    case Member(key, Object(inner), rest) => CleanKey(key) && Clean(inner) && Clean(rest)
  }

  /** What the server's parser calls the type of a value that the printer wrote. */
  function TypeOfValue(v: Value): string {
    match v
    case Leaf(s) => TypeName(s)
    case Object(_) => "obj"
  }

  /** A phrase that writes a value as the printer would, but for white space. */
  predicate LaysOutValue(p: Phrase, v: Value)
    decreases v
  {
    match v
    case Leaf(s) => p.InQuotes? && p.text == Text(s)
    case Object(members) => p.InBraces? && LaysOut(p.body, members)
  }

  /** The members in order, with any white space, and with commas wherever the grammar needs them. */
  predicate LaysOut(b: Body, m: Members)
    decreases m
  {
    match m
    case NoMembers => b.Closing?
    case Member(key, value, rest) =>
      b.Entry? && b.key == key && b.name == TypeOfValue(value) && LaysOutValue(b.value, value) && LaysOut(b.rest, rest)
  }

  /** The layout without white space that the printer uses. */
  function TightValue(v: Value): Phrase
    decreases v, 1
  {
    match v
    case Leaf(s) => InQuotes("", Text(s))
    case Object(members) => InBraces("", Tight(members, Nothing))
  }

  function Tight(m: Members, separator: Separator): Body
    decreases m, 0
  {
    match m
    case NoMembers => Closing("")
    case Member(key, value, rest) =>
      Entry(separator, "", key, " ", TypeOfValue(value), TightValue(value), Tight(rest, Comma("")))
  }

  lemma ShownClean(n: int)
    ensures CleanText(Show(n))
  {
  }

  lemma NumberMeans(n: int, scalar: uint64 -> Scalar)
    requires ParseUnsigned(Show(n)).Success?
    ensures CleanText(Show(n)) && CStr(Show(n)) == Show(n)
    ensures Number(Show(n), scalar) == Success([Scalar(scalar(ParseUnsigned(Show(n)).value))])
  {
    ShownClean(n);
    CStrClean(Show(n));
  }

  lemma IntegerMeans(s: Scalar)
    requires s.Int? || s.Uint? || s.Int64? || s.Uint64?
    ensures CleanText(Text(s)) && Meaning(TypeName(s), Text(s)) == Success([Scalar(s)])
  {
    match s
    case Int(i) =>
      IntegersSurvive(i, 0, 0, 0);
      NumberMeans(i, (n: uint64) => Int(ToInt32(n)));
    case Uint(u) =>
      IntegersSurvive(0, u, 0, 0);
      NumberMeans(u, (n: uint64) => Uint(ToUint32(n)));
    case Int64(l) =>
      IntegersSurvive(0, 0, l, 0);
      NumberMeans(l, (n: uint64) => Int64(ToInt64(n)));
    case Uint64(m) =>
      IntegersSurvive(0, 0, 0, m);
      NumberMeans(m, (n: uint64) => Uint64(n));
  }

  /** The printed text of a scalar means that scalar, if it is clean. */
  lemma ScalarMeans(s: Scalar)
    requires CleanScalar(s)
    ensures CleanText(Text(s)) && Meaning(TypeName(s), Text(s)) == Success([Scalar(s)])
  {
    match s
    case Null =>
    case Bool(b) => CStrClean(Text(s));
    case Str(str) => CStrClean(str);
    case _ => IntegerMeans(s);
  }

  /** Every layout of a clean tree means that tree's events. */
  lemma {:induction false} LayoutMeans(b: Body, m: Members)
    requires LaysOut(b, m) && Clean(m)
    ensures BodyEvents(b) == Success(MemberEvents(m, false))
    decreases m, 0
  {
    match m
    case NoMembers =>
    case Member(key, value, rest) =>
      assert Clean(Member(key, value, NoMembers)) && Clean(rest);
      CStrClean(key);
      ValueMeans(b.value, key, value);
      LayoutMeans(b.rest, rest);
      MemberEventsUnfold(key, value, rest);
  }

  lemma {:induction false} ValueMeans(p: Phrase, key: string, v: Value)
    requires LaysOutValue(p, v) && Clean(Member(key, v, NoMembers))
    ensures PhraseEvents(p, TypeOfValue(v)) == Success(ValueEvents(v))
    decreases v, 1
  {
    match v
    case Leaf(s) => ScalarMeans(s);
    case Object(members) => LayoutMeans(p.body, members);
  }

  function ValueEvents(v: Value): seq<Event> {
    match v
    case Leaf(s) => [Scalar(s)]
    case Object(inner) => ObjectEvents(inner, false)
  }

  lemma MemberEventsUnfold(key: string, value: Value, rest: Members)
    ensures MemberEvents(Member(key, value, rest), false) == [Key(key)] + ValueEvents(value) + MemberEvents(rest, false)
  {
    match value
    case Leaf(s) => assert [Key(key)] + [Scalar(s)] == [Key(key), Scalar(s)];
    case Object(inner) =>
  }

  /** Whatever white space a clean tree's text has before its braces, keys, types, values and commas
      and at its end, parsing it emits exactly the tree's events. */
  lemma LayoutParses(input: string, body: Body, trailing: string, m: Members)
    requires Derives(input, body, trailing) && LaysOut(body, m) && Clean(m)
    ensures ParseSisl(input) == Success(ObjectEvents(m, false))
  {
    LayoutMeans(body, m);
    DerivedParses(input, body, trailing);
  }

  lemma QuotedText(name: string, text: string, tail: string)
    ensures Quoted(name, text) + tail == "!" + (name + (" " + ("\"" + (text + ("\"" + tail)))))
  {
    assert " \"" == " " + "\"";
    Reassociate("!" + name, " ", "\"");
    Reassociate("!" + name + " ", "\"", text);
    Reassociate("!" + name + " ", "\"" + text, "\"");
    Reassociate("!" + name + " ", "\"" + text + "\"", tail);
    Reassociate("\"" + text, "\"", tail);
    Reassociate("\"", text, "\"" + tail);
    Reassociate("!" + name, " ", "\"" + (text + ("\"" + tail)));
    Reassociate("!", name, " " + ("\"" + (text + ("\"" + tail))));
  }

  lemma ObjectText(m: Members, tail: string)
    ensures RenderObject(m) + tail == "{" + (RenderMembers(m) + ("}" + tail))
  {
    Reassociate("{", RenderMembers(m), "}");
    Reassociate("{", RenderMembers(m) + "}", tail);
    Reassociate(RenderMembers(m), "}", tail);
  }

  lemma TaggedText(text: string, tail: string)
    ensures "!obj " + text + tail == "!" + ("obj" + (" " + (text + tail)))
  {
    assert "!obj " == "!" + ("obj" + " ");
    Reassociate("!" + ("obj" + " "), text, tail);
    Reassociate("!", "obj" + " ", text + tail);
    Reassociate("obj", " ", text + tail);
  }

  lemma NothingBeforeText(s: string)
    ensures "" + s == s
  {
  }

  lemma {:induction false} TightValueText(v: Value, tail: string)
    requires v.Object? ==> Clean(v.members)
    ensures RenderValue(v) + tail == "!" + (TypeOfValue(v) + (" " + PhraseText(TightValue(v), tail)))
    decreases v, 1
  {
    match v
    case Leaf(s) =>
      QuotedText(TypeName(s), Text(s), tail);
      NothingBeforeText("\"" + (Text(s) + ("\"" + tail)));
    case Object(members) =>
      ObjectText(members, tail);
      TightText(members, Nothing, tail);
      TaggedText(RenderObject(members), tail);
      NothingBeforeText("{" + BodyText(Tight(members, Nothing), tail));
  }

  lemma MemberText(key: string, value: Value, tail: string)
    requires '\0' !in key
    ensures RenderMember(key, value) + tail == key + (":" + (" " + (RenderValue(value) + tail)))
  {
    CStrClean(key);
    assert ": " == ":" + " ";
    Reassociate(key, ": ", RenderValue(value));
    Reassociate(key, ": " + RenderValue(value), tail);
    Reassociate(": ", RenderValue(value), tail);
    Reassociate(":", " ", RenderValue(value) + tail);
  }

  lemma FirstMember(key: string, value: Value, rest: Members, tail: string)
    ensures RenderMembers(Member(key, value, rest)) + tail
         == RenderMember(key, value) + (if rest.NoMembers? then tail else "," + (RenderMembers(rest) + tail))
  {
    if !rest.NoMembers? {
      Reassociate(RenderMember(key, value) + ",", RenderMembers(rest), tail);
      Reassociate(RenderMember(key, value), ",", RenderMembers(rest) + tail);
    }
  }

  /** The printer's text of members is their tight layout. */
  lemma {:induction false} TightText(m: Members, separator: Separator, tail: string)
    requires Clean(m) && (separator == Nothing || separator == Comma(""))
    ensures var plain := RenderMembers(m) + ("}" + tail);
            BodyText(Tight(m, separator), tail) == if m.Member? && separator.Comma? then "," + plain else plain
    decreases m, 0
  {
    match m
    case NoMembers =>
    case Member(key, value, rest) =>
      var after := BodyText(Tight(rest, Comma("")), tail);
      assert Clean(Member(key, value, NoMembers)) && Clean(rest);
      TightText(rest, Comma(""), tail);
      NothingBeforeText("}" + tail);
      FirstMember(key, value, rest, "}" + tail);
      MemberText(key, value, after);
      TightValueText(value, after);
      var entry := EntryText("", key, " ", TypeOfValue(value), PhraseText(TightValue(value), after));
      NothingBeforeText(key + (":" + (" " + (RenderValue(value) + after))));
      NothingBeforeText("," + entry);
  }

  lemma TypesAreWords(v: Value)
    ensures IsTypeName(TypeOfValue(v))
  {
  }

  lemma {:induction false} TightFits(m: Members, separator: Separator, place: Place)
    requires Clean(m) && (if place == First then separator == Nothing else separator == Comma(""))
    ensures Proper(Tight(m, separator), place) && LaysOut(Tight(m, separator), m)
    decreases m
  {
    match m
    case NoMembers =>
    case Member(key, value, rest) =>
      assert Clean(Member(key, value, NoMembers)) && Clean(rest);
      TypesAreWords(value);
      TightFits(rest, Comma(""), PlaceAfter(TightValue(value)));
      match value
      case Leaf(s) => ScalarMeans(s);
      case Object(inner) => TightFits(inner, Nothing, First);
  }

  /** What the parser emits: clean keys and strings, and an empty key where the input has a NUL. */
  predicate CleanEvent(e: Event, nul: bool) {
    match e
    case Key(key) => CleanKey(key) || (nul && key == "")
    case Scalar(s) => CleanScalar(s)
    case _ => true
  }

  predicate CleanEvents(events: seq<Event>, nul: bool) {
    forall e | e in events :: CleanEvent(e, nul)
  }

  predicate NulOnlyIf(nul: bool, s: string) {
    '\0' in s ==> nul
  }

  lemma KeyIsClean(key: string, nul: bool)
    requires IsKey(key) && NulOnlyIf(nul, key)
    ensures CleanEvent(Key(CStr(key)), nul)
  {
    CStrEndsAtNul(key);
    if '\0' !in key {
      CStrClean(key);
    }
  }

  lemma MeaningIsClean(name: string, text: string, nul: bool)
    requires '"' !in text && Meaning(name, text).Success?
    ensures CleanEvents(Meaning(name, text).value, nul)
  {
    CStrEndsAtNul(text);
  }

  lemma PartsOfEntry(gap: string, key: string, beforeType: string, name: string, value: string, nul: bool)
    requires NulOnlyIf(nul, EntryText(gap, key, beforeType, name, value))
    ensures NulOnlyIf(nul, key) && NulOnlyIf(nul, value)
  {
  }

  lemma {:induction false} BodyIsClean(b: Body, place: Place, tail: string, nul: bool)
    requires Proper(b, place) && NulOnlyIf(nul, BodyText(b, tail)) && BodyEvents(b).Success?
    ensures NulOnlyIf(nul, tail) && CleanEvents(BodyEvents(b).value, nul)
    decreases b
  {
    match b
    case Closing(_) =>
    case Entry(separator, gap, key, beforeType, name, value, rest) =>
      var after := BodyText(rest, tail);
      var entry := EntryText(gap, key, beforeType, name, PhraseText(value, after));
      if separator.Comma? {
        assert NulOnlyIf(nul, "," + entry);
      }
      PartsOfEntry(gap, key, beforeType, name, PhraseText(value, after), nul);
      KeyIsClean(key, nul);
      PhraseIsClean(value, name, after, nul);
      BodyIsClean(rest, PlaceAfter(value), tail, nul);
  }

  lemma {:induction false} PhraseIsClean(v: Phrase, name: string, tail: string, nul: bool)
    requires ProperPhrase(v) && NulOnlyIf(nul, PhraseText(v, tail)) && PhraseEvents(v, name).Success?
    ensures NulOnlyIf(nul, tail) && CleanEvents(PhraseEvents(v, name).value, nul)
    decreases v
  {
    match v
    case InQuotes(gap, text) =>
      assert NulOnlyIf(nul, text + ("\"" + tail));
      MeaningIsClean(name, text, nul);
    case InBraces(gap, body) =>
      assert NulOnlyIf(nul, "{" + BodyText(body, tail));
      BodyIsClean(body, First, tail, nul);
  }

  /** Whatever the input, what the parser makes of it has only clean keys and strings, except for an
      empty key where the input has a NUL. */
  lemma ParsedIsClean(input: string)
    requires ParseSisl(input).Success?
    ensures CleanEvents(ParseSisl(input).value, '\0' in input)
  {
    var body, trailing := ParsedDerives(input);
    BodyIsClean(body, First, trailing, '\0' in input);
  }

  lemma WithoutNul(a: string, b: string)
    requires '\0' !in a && '\0' !in b
    ensures '\0' !in a + b
  {
  }

  lemma {:induction false} RenderedWithoutNul(m: Members)
    ensures '\0' !in RenderMembers(m)
  {
    match m
    case NoMembers =>
    case Member(key, value, rest) =>
      MemberWithoutNul(key, value);
      RenderedWithoutNul(rest);
      WithoutNul(RenderMember(key, value), ",");
      WithoutNul(RenderMember(key, value) + ",", RenderMembers(rest));
  }

  lemma {:induction false} MemberWithoutNul(key: string, value: Value)
    ensures '\0' !in RenderMember(key, value)
    decreases value
  {
    match value {
      case Leaf(s) => TextWithoutNul(s);
      case Object(inner) =>
        RenderedWithoutNul(inner);
        WithoutNul("{", RenderMembers(inner));
        WithoutNul("{" + RenderMembers(inner), "}");
        WithoutNul("!obj ", RenderObject(inner));
    }
    CStrEndsAtNul(key);
    WithoutNul(CStr(key), ": ");
    WithoutNul(CStr(key) + ": ", RenderValue(value));
  }

  lemma TextWithoutNul(s: Scalar)
    ensures '\0' !in RenderValue(Leaf(s))
  {
    match s
    case Str(str) => CStrEndsAtNul(str);
    case Int(i) => ShownClean(i);
    case Uint(u) => ShownClean(u);
    case Int64(l) => ShownClean(l);
    case Uint64(m) => ShownClean(m);
    case _ =>
  }

  lemma {:induction false} EventsTellCleanness(m: Members)
    requires CleanEvents(MemberEvents(m, false), false)
    ensures Clean(m)
  {
    match m
    case NoMembers =>
    case Member(key, value, rest) =>
      MemberEventsUnfold(key, value, rest);
      var events := MemberEvents(m, false);
      assert events[0] == Key(key) && CleanEvent(events[0], false);
      assert forall e | e in MemberEvents(rest, false) :: e in events;
      EventsTellCleanness(rest);
      match value
      case Leaf(s) => assert events[1] == Scalar(s) && CleanEvent(events[1], false);
      case Object(inner) =>
        assert forall e | e in MemberEvents(inner, false) :: e in ValueEvents(value);
        EventsTellCleanness(inner);
  }

  /** Parsing a rendered object emits exactly the original events if and only if every key and
      string in it is clean. In particular no action fires on an abandoned branch, although the
      name rule is tried at every closing brace. */
  lemma ParseRenderedIff(m: Members)
    ensures ParseSisl(RenderObject(m)) == Success(ObjectEvents(m, false)) <==> Clean(m)
  {
    if Clean(m) {
      TightText(m, Nothing, "");
      ObjectText(m, "");
      NothingAdded(RenderObject(m));
      TightFits(m, Nothing, First);
      LayoutParses(RenderObject(m), Tight(m, Nothing), "", m);
    }
    if ParseSisl(RenderObject(m)) == Success(ObjectEvents(m, false)) {
      RenderedWithoutNul(m);
      WithoutNul("{", RenderMembers(m));
      WithoutNul("{" + RenderMembers(m), "}");
      ParsedIsClean(RenderObject(m));
      assert forall e | e in MemberEvents(m, false) :: e in ObjectEvents(m, false);
      EventsTellCleanness(m);
    }
  }

  /** The two converters undo each other, from the reader's events through the printed text to
      the writer's events, exactly on clean trees. */
  lemma PrintParseIff(m: Members)
    requires Depth(m) < TWO_64
    ensures var printed := Fed(INITIAL, ObjectEvents(m, true));
            && printed.Success?
            && (ParseSisl(printed.value.stream) == Success(ObjectEvents(m, false)) <==> Clean(m))
  {
    PrinterRenders(m);
    ParseRenderedIff(m);
  }
}
