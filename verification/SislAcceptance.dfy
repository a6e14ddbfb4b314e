/** The SISL parser accepts nothing but its language: from a successful parse to the phrase that was
    read (src/SislTools/library/BoostSpiritSislParser.cpp). */
module SislAcceptance {
  import opened Common
  import opened SislTree
  import opened Decimal
  import opened SislParser
  import opened SislGrammar

  /** The type and value rules, after a name. */
  function Typed(s: string, st: Storage): Parse {
    match Type(s, st)
    case Match(rest, next) => SislValue(rest, next)
    case other => other
  }

  /** The same match, whatever it does to the storage. */
  predicate Alike(a: Parse, b: Parse) {
    (a.Match? <==> b.Match?) && (a.NoMatch? <==> b.NoMatch?) && (a.Match? ==> a.rest == b.rest)
  }

  lemma TypeAlike(s: string, a: Storage, b: Storage)
    ensures Alike(Type(s, a), Type(s, b))
    ensures Type(s, a).Match? ==> Type(s, a).storage.rType == Type(s, b).storage.rType
    ensures Type(s, a).NoMatch? ==> Type(s, a).storage == a
  {
  }

  lemma QuotedAlike(s: string, a: Storage, b: Storage)
    requires a.rType == b.rType
    ensures Alike(QuotedString(s, a), QuotedString(s, b))
    ensures QuotedString(s, a).NoMatch? ==> QuotedString(s, a).storage == a
  {
  }

  lemma {:induction false} ValueAlike(s: string, a: Storage, b: Storage)
    requires a.rType == b.rType
    ensures Alike(SislValue(s, a), SislValue(s, b))
    decreases |s|, 1
  {
    QuotedAlike(s, a, b);
    QuotedAlike(s, b, a);
    if QuotedString(s, a).NoMatch? {
      SislAlike(s, a, b);
    }
  }

  lemma {:induction false} TypedAlike(s: string, a: Storage, b: Storage)
    ensures Alike(Typed(s, a), Typed(s, b))
    decreases |s|, 0
  {
    TypeAlike(s, a, b);
    TypeAlike(s, b, a);
    if Type(s, a).Match? {
      ValueAlike(Type(s, a).rest, Type(s, a).storage, Type(s, b).storage);
    }
  }

  lemma GroupingUnfold(s: string, st: Storage)
    ensures Grouping(s, st)
         == match Name(s, st) case Match(after, named) => Typed(after, named) case other => other
  {
  }

  lemma NameAlike(s: string, a: Storage, b: Storage)
    ensures Alike(Name(s, a), Name(s, b))
    ensures Name(s, a).NoMatch? ==> Name(s, a).storage == a
    ensures !Name(s, a).Raise?
  {
  }

  lemma {:induction false} GroupingAlike(s: string, a: Storage, b: Storage)
    ensures Alike(Grouping(s, a), Grouping(s, b))
    decreases |s|, 0
  {
    NameAlike(s, a, b);
    NameAlike(s, b, a);
    if Name(s, a).Match? {
      TypedAlike(Name(s, a).rest, Name(s, a).storage, Name(s, b).storage);
    }
  }

  lemma {:induction false} ListTailAlike(s: string, a: Storage, b: Storage)
    ensures Alike(ListTail(s, a), ListTail(s, b))
    decreases |s|, 1
  {
    match Literal(s, ',')
    case None =>
    case Some(after) =>
      GroupingAlike(after, a, b);
      var r := Grouping(after, a);
      if r.Match? {
        ListTailAlike(r.rest, r.storage, Grouping(after, b).storage);
      }
  }

  lemma {:induction false} ListsAlike(s: string, a: Storage, b: Storage)
    ensures Alike(Lists(s, a), Lists(s, b))
    decreases |s|, 2
  {
    GroupingAlike(s, a, b);
    var r := Grouping(s, a);
    if r.Match? {
      ListTailAlike(r.rest, r.storage, Grouping(s, b).storage);
      var more := ListTail(r.rest, r.storage);
      if more.Match? {
        ListsAlike(more.rest, more.storage, ListTail(r.rest, Grouping(s, b).storage).storage);
      }
    }
    ListsUnfold(s, a);
    ListsUnfold(s, b);
  }

  lemma {:induction false} SislAlike(s: string, a: Storage, b: Storage)
    ensures Alike(Sisl(s, a), Sisl(s, b))
    decreases |s|, 0
  {
    match Literal(s, '{')
    case None =>
    case Some(body) => ListsAlike(body, Emit(a, StartObject), Emit(b, StartObject));
  }

  /** A name can be read here, and then no type and value: the key's event stays although nothing
      matched. */
  ghost predicate Spoilt(s: string) {
    var n := Span(s, NAME_STOPS);
    n < |s| && s[n] == ':' && NeverTyped(s[n + 1..])
  }

  ghost predicate NeverTyped(s: string) {
    forall st :: !Typed(s, st).Match?
  }

  lemma SpoiltBehind(front: string, s: string)
    requires Spoilt(front + s) && forall c | c in front :: c !in NAME_STOPS
    ensures Spoilt(s)
  {
    SpanConcat(front, s, NAME_STOPS);
    PastFront(front, s, Span(s, NAME_STOPS) + 1);
  }

  lemma HeadAndRest(s: string)
    requires s != ""
    ensures s == [s[0]] + s[1..]
  {
  }

  lemma CutAt(s: string, n: nat)
    requires n < |s|
    ensures s == s[..n] + ([s[n]] + s[n + 1..])
  {
  }

  lemma PastFront(a: string, b: string, k: nat)
    requires k <= |b|
    ensures (a + b)[|a| + k..] == b[k..]
  {
  }

  /** White space is where names are not stopped. */
  lemma SpacesOf(s: string) returns (gap: string)
    ensures s == gap + DropSpaces(s) && Blank(gap)
  {
    if s != "" && IsSpace(s[0]) {
      var more := SpacesOf(s[1..]);
      gap := [s[0]] + more;
      assert s == [s[0]] + s[1..];
      assert gap + DropSpaces(s) == [s[0]] + (more + DropSpaces(s[1..]));
    } else {
      gap := "";
    }
  }

  /** A name in terms of the text: what its rule reads, and when it fails. */
  lemma NameOf(s: string, st: Storage) returns (gap: string, key: string)
    requires Name(s, st).Match?
    ensures Blank(gap) && IsKey(key) && s == gap + (key + (":" + Name(s, st).rest))
    ensures Name(s, st).storage == Emit(st, Key(CStr(key)))
  {
    gap := SpacesOf(s);
    var t := DropSpaces(s);
    var n := Span(t, NAME_STOPS);
    key := t[..n];
    CutAt(t, n);
    KeyOf(t, n);
  }

  lemma KeyOf(t: string, n: nat)
    requires 0 < n == Span(t, NAME_STOPS) && !IsSpace(t[0])
    ensures IsKey(t[..n])
  {
    assert t[..n][0] == t[0];
  }

  lemma StopsAt(gap: string, key: string, rest: string)
    requires Blank(gap) && IsKey(key)
    ensures var (s, n) := (gap + (key + (":" + rest)), |gap| + |key|);
            n < |s| && Span(s, NAME_STOPS) == n && s[n] == ':' && s[n + 1..] == rest
  {
    var u := key + (":" + rest);
    SpanSplit(key, ":" + rest, NAME_STOPS);
    SpanConcat(gap, u, NAME_STOPS);
    FirstAndRest(':', rest);
    assert (gap + u)[|gap| + |key|] == u[|key|];
    PastFront(gap, u, |key| + 1);
  }

  /** ... and it stops at the first colon. */
  lemma NameStops(s: string, st: Storage)
    requires Name(s, st).Match?
    ensures !NoNameAhead(s) && Span(s, NAME_STOPS) < |s| && s[Span(s, NAME_STOPS) + 1..] == Name(s, st).rest
  {
    var gap, key := NameOf(s, st);
    StopsAt(gap, key, Name(s, st).rest);
  }

  lemma NoNameHere(s: string, st: Storage)
    requires Name(s, st).NoMatch? && DropSpaces(s) != "" && DropSpaces(s)[0] !in NAME_STOPS
    ensures NoNameAhead(DropSpaces(s))
  {
  }

  lemma PastOne(c: char, s: string)
    requires c !in NAME_STOPS
    ensures NoNameAhead([c] + s) <==> NoNameAhead(s)
  {
    SpanConcat([c], s, NAME_STOPS);
    FirstAndRest(c, s);
    if Span(s, NAME_STOPS) < |s| {
      PastFront([c], s, Span(s, NAME_STOPS));
      assert ([c] + s)[1 + Span(s, NAME_STOPS)] == s[Span(s, NAME_STOPS)];
    }
  }

  lemma NoNameStops(s: string, st: Storage, c: char, after: string)
    requires Name(s, st).NoMatch? && Literal(s, c) == Some(after) && c !in NAME_STOPS
    ensures NoNameAhead(s) && NoNameAhead(after)
  {
    var gap := SpacesOf(s);
    HeadAndRest(DropSpaces(s));
    NoNameHere(s, st);
    PastOne(c, after);
    BlankAhead(gap, DropSpaces(s));
  }

  /** Where a name was read but no grouping, the text is spoilt. */
  lemma FailedGrouping(s: string, st: Storage)
    requires !Grouping(s, st).Match? && Name(s, st).Match?
    ensures Spoilt(s)
  {
    NameStops(s, st);
    GroupingUnfold(s, st);
    forall other
      ensures !Typed(Name(s, st).rest, other).Match?
    {
      TypedAlike(Name(s, st).rest, Name(s, st).storage, other);
    }
  }

  /** No name and no grouping leave nothing behind; otherwise the text is spoilt. */
  lemma NoGrouping(s: string, st: Storage)
    requires Grouping(s, st).NoMatch?
    ensures Spoilt(s) || (Name(s, st) == NoMatch(st) && Grouping(s, st) == NoMatch(st))
  {
    if Name(s, st).Match? {
      FailedGrouping(s, st);
    }
    GroupingUnfold(s, st);
    NameAlike(s, st, st);
  }

  lemma SpoiltGroupingFails(s: string, st: Storage)
    requires Spoilt(s)
    ensures !Grouping(s, st).Match?
  {
    if Name(s, st).Match? {
      NameStops(s, st);
      GroupingUnfold(s, st);
    }
    GroupingUnfold(s, st);
    NameAlike(s, st, st);
  }

  lemma SpoiltHasNoComma(s: string)
    requires Spoilt(s)
    ensures Literal(s, ',') == None
  {
    var gap := SpacesOf(s);
    SpoiltBehind(gap, DropSpaces(s));
  }

  /** From a spoilt text on the repetition reads nothing. */
  lemma SpoiltStays(s: string, st: Storage)
    requires Spoilt(s)
    ensures Lists(s, st).Match? ==> Lists(s, st).rest == s
    ensures Continued(s, st).Match? ==> Continued(s, st).rest == s
  {
    SpoiltGroupingFails(s, st);
    ListsUnfold(s, st);
    SpoiltHasNoComma(s);
    ContinuedUnfold(s, st);
  }

  /** A brace after spoilt text leaves spoilt text. */
  lemma SpoiltPastBrace(s: string, after: string)
    requires Spoilt(s) && Literal(s, '}') == Some(after)
    ensures Spoilt(after)
  {
    var gap := SpacesOf(s);
    SpoiltBehind(gap, DropSpaces(s));
    assert DropSpaces(s) == "}" + after;
    SpoiltBehind("}", after);
  }

  lemma LiteralOf(s: string, c: char) returns (gap: string)
    requires Literal(s, c).Some?
    ensures Blank(gap) && s == gap + ([c] + Literal(s, c).value)
  {
    gap := SpacesOf(s);
  }

  lemma TypeOf(s: string, st: Storage) returns (gap: string, name: string)
    requires Type(s, st).Match?
    ensures Blank(gap) && IsTypeName(name) && s == gap + ("!" + (name + (" " + Type(s, st).rest)))
    ensures Type(s, st).storage == st.(rType := name)
  {
    gap := SpacesOf(s);
    var u := DropSpaces(s)[1..];
    var n := Span(u, {' '});
    name := u[..n];
    CutAt(u, n);
    HeadAndRest(DropSpaces(s));
  }

  /** Either no quoted text can be read, or there is one. */
  lemma QuotedShape(s: string) returns (found: bool, gap: string, text: string, after: string)
    ensures found ==> Blank(gap) && '"' !in text && s == gap + ("\"" + (text + ("\"" + after)))
    ensures !found ==> forall st :: QuotedString(s, st).NoMatch?
  {
    gap, text, after, found := "", "", "", false;
    var t := DropSpaces(s);
    if StartsWith(t, '"') {
      var n := Span(t[1..], {'"'});
      if n < |t[1..]| {
        found, text, after := true, t[1..][..n], t[1..][n + 1..];
        gap := SpacesOf(s);
        HeadAndRest(t);
        CutAt(t[1..], n);
      }
    }
  }

  lemma QuotedOf(s: string, st: Storage) returns (gap: string, text: string)
    requires QuotedString(s, st).Match?
    ensures Blank(gap) && '"' !in text && s == gap + ("\"" + (text + ("\"" + QuotedString(s, st).rest)))
    ensures Converted(st, text) == Success(QuotedString(s, st).storage)
  {
    var found, after;
    found, gap, text, after := QuotedShape(s);
    QuotedRead(gap, text, after, st);
  }

  /** What was read is a text of the grammar, and what was emitted is its meaning. */
  ghost predicate Reads(s: string, st: Storage, r: Parse, text: string, events: Result<seq<Event>>)
  {
    r.Match? && s == text && events.Success? && r.storage.events == st.events + events.value
  }

  lemma {:induction false} ValueSound(s: string, st: Storage) returns (v: Phrase)
    requires SislValue(s, st).Match? && !Spoilt(SislValue(s, st).rest)
    ensures var r := SislValue(s, st);
            ProperPhrase(v) && Reads(s, st, r, PhraseText(v, r.rest), PhraseEvents(v, st.rType))
            && (v.InBraces? ==> NoNameAhead(r.rest))
    decreases |s|, 1
  {
    if QuotedString(s, st).Match? {
      var gap, text := QuotedOf(s, st);
      v := InQuotes(gap, text);
      ConvertedMeans(st, text);
    } else {
      QuotedAlike(s, st, st);
      var gap, body := SislSound(s, st);
      v := InBraces(gap, body);
    }
  }

  lemma {:induction false} SislSound(s: string, st: Storage) returns (gap: string, body: Body)
    requires Sisl(s, st).Match? && !Spoilt(Sisl(s, st).rest)
    ensures var r := Sisl(s, st);
            Blank(gap) && Proper(body, First) && NoNameAhead(r.rest)
            && Reads(s, st, r, gap + ("{" + BodyText(body, r.rest)), PhraseEvents(InBraces(gap, body), st.rType))
    decreases |s|, 0
  {
    gap := LiteralOf(s, '{');
    var inner, started := Literal(s, '{').value, Emit(st, StartObject);
    body := ListsSound(inner, started, Sisl(s, st).rest);
    AroundBody(st.events, BodyEvents(body).value);
  }

  lemma {:induction false} ListsSound(s: string, st: Storage, after: string) returns (b: Body)
    requires Lists(s, st).Match? && Literal(Lists(s, st).rest, '}') == Some(after) && !Spoilt(after)
    ensures Proper(b, First) && NoNameAhead(after)
    ensures Reads(s, st, Lists(s, st), BodyText(b, after), BodyEvents(b))
    decreases |s|, 2
  {
    var r := Lists(s, st);
    ListsUnfold(s, st);
    if Grouping(s, st).Match? {
      b := EntrySound(s, st, after);
    } else {
      b := ClosingSound(s, st, after);
    }
  }

  /** No entry is left: the closing brace. */
  lemma ClosingSound(s: string, st: Storage, after: string) returns (b: Body)
    requires Grouping(s, st).NoMatch? && Literal(s, '}') == Some(after) && !Spoilt(after)
    ensures b.Closing? && Blank(b.gap) && NoNameAhead(after) && NoNameAhead(s) && Grouping(s, st) == NoMatch(st)
    ensures s == BodyText(b, after)
  {
    if Spoilt(s) {
      SpoiltPastBrace(s, after);
    }
    NoGrouping(s, st);
    var gap := LiteralOf(s, '}');
    b := Closing(gap);
    NoNameStops(s, st, '}', after);
  }

  /** An entry that no comma introduces, and the rest. */
  lemma {:induction false} EntrySound(s: string, st: Storage, after: string) returns (b: Body)
    requires Grouping(s, st).Match? && Lists(s, st).Match?
    requires Literal(Lists(s, st).rest, '}') == Some(after) && !Spoilt(after)
    ensures b.Entry? && b.separator == Nothing && Proper(b, First) && NoNameAhead(after) && !NoNameAhead(s)
    ensures Reads(s, st, Lists(s, st), BodyText(b, after), BodyEvents(b))
    decreases |s|, 1
  {
    ListsUnfold(s, st);
    var g := Grouping(s, st);
    NotSpoilt(g.rest, g.storage, after);
    var gap, key, beforeType, name, value := GroupingSound(s, st);
    var rest := ContinuedSound(g.rest, g.storage, PlaceAfter(value), after);
    b := Entry(Nothing, gap, key, beforeType, name, value, rest);
    JoinEvents(st.events, [Key(CStr(key))] + PhraseEvents(value, name).value, BodyEvents(rest).value);
  }

  lemma JoinEvents(before: seq<Event>, first: seq<Event>, more: seq<Event>)
    ensures before + first + more == before + (first + more)
  {
  }

  lemma NotSpoilt(s: string, st: Storage, after: string)
    requires Continued(s, st).Match? && Literal(Continued(s, st).rest, '}') == Some(after) && !Spoilt(after)
    ensures !Spoilt(s)
  {
    if Spoilt(s) {
      SpoiltStays(s, st);
      SpoiltPastBrace(s, after);
    }
  }

  lemma {:induction false} GroupingSound(s: string, st: Storage)
    returns (gap: string, key: string, beforeType: string, name: string, value: Phrase)
    requires Grouping(s, st).Match? && !Spoilt(Grouping(s, st).rest)
    ensures var r := Grouping(s, st);
            Blank(gap) && IsKey(key) && Blank(beforeType) && IsTypeName(name) && ProperPhrase(value)
            && PhraseEvents(value, name).Success?
            && Reads(s, st, r, EntryText(gap, key, beforeType, name, PhraseText(value, r.rest)),
                     Success([Key(CStr(key))] + PhraseEvents(value, name).value))
            && (value.InBraces? ==> NoNameAhead(r.rest))
    ensures !NoNameAhead(s)
    decreases |s|, 0
  {
    GroupingUnfold(s, st);
    var named := Name(s, st);
    gap, key := NameOf(s, st);
    NameStops(s, st);
    beforeType, name := TypeOf(named.rest, named.storage);
    var typed := Type(named.rest, named.storage);
    value := ValueSound(typed.rest, typed.storage);
    KeyFirst(st.events, Key(CStr(key)), PhraseEvents(value, name).value);
  }

  /** What follows an entry. */
  lemma {:induction false} ContinuedSound(s: string, st: Storage, place: Place, after: string) returns (b: Body)
    requires Continued(s, st).Match? && Literal(Continued(s, st).rest, '}') == Some(after) && !Spoilt(after)
    requires place != First && (place == AfterObject ==> NoNameAhead(s))
    ensures Proper(b, place) && NoNameAhead(after)
    ensures Reads(s, st, Continued(s, st), BodyText(b, after), BodyEvents(b))
    decreases |s|, 3
  {
    ContinuedUnfold(s, st);
    match Literal(s, ',')
    case None =>
      ListsUnfold(s, st);
      if Grouping(s, st).Match? {
        b := EntrySound(s, st, after);
        assert place == AfterText;
        assert Proper(b, place);
      } else {
        b := ClosingSound(s, st, after);
      }
    case Some(afterComma) =>
      var comma := LiteralOf(s, ',');
      CommaLeads(s, st, afterComma, after);
      var g := Grouping(afterComma, st);
      NotSpoilt(g.rest, g.storage, after);
      var gap, key, beforeType, name, value := GroupingSound(afterComma, st);
      var rest := ContinuedSound(g.rest, g.storage, PlaceAfter(value), after);
      b := Entry(Comma(comma), gap, key, beforeType, name, value, rest);
      JoinEvents(st.events, [Key(CStr(key))] + PhraseEvents(value, name).value, BodyEvents(rest).value);
  }

  /** After a comma that no grouping follows no brace can be read. */
  lemma CommaLeads(s: string, st: Storage, afterComma: string, after: string)
    requires Literal(s, ',') == Some(afterComma) && Continued(s, st).Match?
    requires Literal(Continued(s, st).rest, '}') == Some(after)
    ensures && Grouping(afterComma, st).Match?
            && Continued(s, st) == Continued(Grouping(afterComma, st).rest, Grouping(afterComma, st).storage)
  {
    ContinuedUnfold(s, st);
    if Grouping(afterComma, st).NoMatch? {
      NothingAtComma(s, Grouping(afterComma, st).storage);
    }
  }

  lemma NothingAtComma(s: string, st: Storage)
    requires Literal(s, ',').Some?
    ensures Lists(s, st) == Match(s, st) && Literal(s, '}') == None
  {
    ListsUnfold(s, st);
    GroupingUnfold(s, st);
  }

  lemma BlankFirst(gap: string, s: string)
    requires Blank(gap) && gap != ""
    ensures (gap + s)[0] in WHITE_SPACE
  {
    assert gap[0] in gap;
  }

  lemma ParsedDerives(input: string) returns (body: Body, trailing: string)
    requires ParseSisl(input).Success?
    ensures Derives(input, body, trailing)
    ensures PhraseEvents(InBraces("", body), "") == ParseSisl(input)
  {
    var st := Storage([], "");
    trailing := Sisl(input, st).rest;
    var blank := SpacesOf(trailing);
    assert trailing == blank;
    BlankEnds(trailing);
    var gap;
    gap, body := SislSound(input, st);
    AtOnce(gap, input, "{" + BodyText(body, trailing));
    NothingBefore(PhraseEvents(InBraces(gap, body), "").value);
  }

  lemma AtOnce(gap: string, input: string, text: string)
    requires Blank(gap) && input == gap + text && StartsWith(input, '{')
    ensures input == text
  {
    if gap != "" {
      BlankFirst(gap, text);
    }
    assert "" + text == text;
  }

  lemma NothingBefore(events: seq<Event>)
    ensures [] + events == events
  {
  }

  /** What the parser accepts, and what it makes of it, exactly: the texts of the grammar, and their
      meaning. In particular a successful parse keeps no event of an abandoned branch, although the
      name rule is tried at every closing brace and events are never taken back. */
  lemma ParsesIff(input: string, events: seq<Event>)
    ensures ParseSisl(input) == Success(events)
       <==> exists body, trailing ::
              Derives(input, body, trailing) && PhraseEvents(InBraces("", body), "") == Success(events)
  {
    if ParseSisl(input) == Success(events) {
      var body, trailing := ParsedDerives(input);
    }
    if body, trailing :| Derives(input, body, trailing) && PhraseEvents(InBraces("", body), "") == Success(events) {
      DerivedParses(input, body, trailing);
    }
  }

  /** A quoted text that its type makes fail. */
  ghost predicate FailsHere(s: string, name: string) {
    exists gap, text, after :: FailingText(s, name, gap, text, after)
  }

  predicate FailingText(s: string, name: string, gap: string, text: string, after: string) {
    s == gap + ("\"" + (text + ("\"" + after))) && Blank(gap) && Meaning(name, text) == Failure(OtherError)
  }

  /** Somewhere in the text stand a type and a quoted text that it makes fail. */
  ghost predicate HasCause(s: string) {
    exists before, name, value :: CauseAt(s, before, name, value)
  }

  ghost predicate CauseAt(s: string, before: string, name: string, value: string) {
    s == before + ("!" + (name + (" " + value))) && IsTypeName(name) && FailsHere(value, name)
  }

  predicate IsSuffix(r: string, s: string) {
    |r| <= |s| && s[|s| - |r|..] == r
  }

  lemma CauseBehind(s: string, r: string)
    requires IsSuffix(r, s) && HasCause(r)
    ensures HasCause(s)
  {
    var before, name, value :| CauseAt(r, before, name, value);
    var front := s[..|s| - |r|];
    assert s == (front + before) + ("!" + (name + (" " + value)));
    assert CauseAt(s, front + before, name, value);
  }

  lemma SuffixOf(front: string, r: string)
    ensures IsSuffix(r, front + r)
  {
  }

  lemma SuffixTwice(a: string, b: string, c: string)
    requires IsSuffix(a, b) && IsSuffix(b, c)
    ensures IsSuffix(a, c)
  {
  }

  /** A match leaves a part of the text, and an exception has its cause there. */
  ghost predicate Sane(r: Parse, s: string) {
    match r
    case Match(rest, _) => IsSuffix(rest, s)
    case NoMatch(_) => true
    case Raise(e) => e == OtherError && HasCause(s)
  }

  lemma SaneBehind(r: Parse, rest: string, s: string)
    requires Sane(r, rest) && IsSuffix(rest, s)
    ensures Sane(r, s)
  {
    match r
    case Match(more, _) => SuffixTwice(more, rest, s);
    case NoMatch(_) =>
    case Raise(_) => CauseBehind(s, rest);
  }

  lemma LiteralSane(s: string, c: char)
    ensures Literal(s, c).Some? ==> IsSuffix(Literal(s, c).value, s)
  {
    if Literal(s, c).Some? {
      var gap := LiteralOf(s, c);
      assert s == (gap + [c]) + Literal(s, c).value;
    }
  }

  lemma PastQuotes(gap: string, text: string, after: string)
    ensures IsSuffix(after, gap + ("\"" + (text + ("\"" + after))))
  {
    SuffixOf("\"", after);
    SuffixOf(text, "\"" + after);
    SuffixTwice(after, "\"" + after, text + ("\"" + after));
    SuffixOf("\"", text + ("\"" + after));
    SuffixTwice(after, text + ("\"" + after), "\"" + (text + ("\"" + after)));
    SuffixOf(gap, "\"" + (text + ("\"" + after)));
    SuffixTwice(after, "\"" + (text + ("\"" + after)), gap + ("\"" + (text + ("\"" + after))));
  }

  lemma QuotedSane(s: string, st: Storage)
    ensures match QuotedString(s, st)
            case Match(rest, _) => IsSuffix(rest, s)
            case NoMatch(_) => true
            case Raise(e) => e == OtherError && FailsHere(s, st.rType)
  {
    var found, gap, text, after := QuotedShape(s);
    if found {
      QuotedRead(gap, text, after, st);
      ConvertedMeans(st, text);
      OnlyOtherErrors(st.rType, text);
      PastQuotes(gap, text, after);
      assert QuotedString(s, st).Raise? ==> FailingText(s, st.rType, gap, text, after);
    }
  }

  lemma OnlyOtherErrors(name: string, text: string)
    ensures Meaning(name, text).Failure? ==> Meaning(name, text) == Failure(OtherError)
  {
  }

  lemma {:induction false} ValueSane(s: string, st: Storage)
    ensures SislValue(s, st).Raise? ==> SislValue(s, st) == Raise(OtherError)
    ensures Sane(SislValue(s, st), s) || (SislValue(s, st).Raise? && FailsHere(s, st.rType))
    decreases |s|, 1
  {
    QuotedSane(s, st);
    match QuotedString(s, st)
    case NoMatch(next) => SislSane(s, next);
    case _ =>
  }

  lemma {:induction false} TypedSane(s: string, st: Storage)
    ensures Sane(Typed(s, st), s)
    decreases |s|, 0
  {
    if Type(s, st).Match? {
      var gap, name := TypeOf(s, st);
      var rest, typed := Type(s, st).rest, Type(s, st).storage;
      ValueSane(rest, typed);
      assert s == (gap + ("!" + (name + " "))) + rest;
      SuffixOf(gap + ("!" + (name + " ")), rest);
      if Sane(SislValue(rest, typed), rest) {
        SaneBehind(SislValue(rest, typed), rest, s);
      } else {
        assert CauseAt(s, gap, name, rest);
      }
    } else {
      TypeAlike(s, st, st);
    }
  }

  lemma {:induction false} GroupingSane(s: string, st: Storage)
    ensures Sane(Grouping(s, st), s)
    decreases |s|, 0
  {
    GroupingUnfold(s, st);
    NameAlike(s, st, st);
    if Name(s, st).Match? {
      var gap, key := NameOf(s, st);
      var rest := Name(s, st).rest;
      assert s == (gap + (key + ":")) + rest;
      SuffixOf(gap + (key + ":"), rest);
      TypedSane(rest, Name(s, st).storage);
      SaneBehind(Typed(rest, Name(s, st).storage), rest, s);
    }
  }

  lemma {:induction false} ListTailSane(s: string, st: Storage)
    ensures Sane(ListTail(s, st), s)
    decreases |s|, 1
  {
    LiteralSane(s, ',');
    match Literal(s, ',')
    case None =>
    case Some(after) =>
      var g := Grouping(after, st);
      GroupingSane(after, st);
      SaneBehind(g, after, s);
      if g.Match? {
        ListTailSane(g.rest, g.storage);
        SaneBehind(ListTail(g.rest, g.storage), g.rest, s);
      }
  }

  lemma {:induction false} ListsSane(s: string, st: Storage)
    ensures Sane(Lists(s, st), s)
    decreases |s|, 2
  {
    var g := Grouping(s, st);
    GroupingSane(s, st);
    ListsUnfold(s, st);
    if g.Match? {
      ListTailSane(g.rest, g.storage);
      var l := ListTail(g.rest, g.storage);
      SaneBehind(l, g.rest, s);
      if l.Match? {
        ListsSane(l.rest, l.storage);
        SaneBehind(Lists(l.rest, l.storage), l.rest, s);
      }
    }
  }

  lemma {:induction false} SislSane(s: string, st: Storage)
    ensures Sane(Sisl(s, st), s)
    decreases |s|, 0
  {
    LiteralSane(s, '{');
    match Literal(s, '{')
    case None =>
    case Some(body) =>
      ListsSane(body, Emit(st, StartObject));
      var l := Lists(body, Emit(st, StartObject));
      SaneBehind(l, body, s);
      if l.Match? {
        LiteralSane(l.rest, '}');
        if Literal(l.rest, '}').Some? {
          SuffixTwice(Literal(l.rest, '}').value, l.rest, s);
        }
      }
  }

  /** A parse that throws anything but a runtime_error has come to a quoted text that is no number of
      the type in front of it; every other text that is not accepted is refused with a
      runtime_error. */
  lemma RaiseHasCause(input: string)
    ensures ParseSisl(input) == Failure(OtherError) ==> StartsWith(input, '{') && HasCause(input)
  {
    SislSane(input, Storage([], ""));
  }
}
