/** The SISL grammar as written (src/SislTools/library/BoostSpiritSislParser.cpp): ordered
    choice, greedy repetition, white space skipped before each lexeme and literal, and actions
    whose effects stay when their branch is abandoned. */
module SislParser {
  import opened Common
  import opened SislTree
  import opened Decimal

  /** The events written so far and the most recent type name. */
  datatype Storage = Storage(events: seq<Event>, rType: string)

  /** A parser matches and leaves the rest of the input, or does not match and leaves only its
      effects on the storage, or an action throws. */
  datatype Parse =
    | Match(rest: string, storage: Storage)
    | NoMatch(storage: Storage)
    | Raise(error: Failure)

  function Emit(st: Storage, e: Event): Storage {
    st.(events := st.events + [e])
  }

  /** How many leading characters a repetition of (char_ - stops) takes. */
  function Span(s: string, stops: set<char>): (n: nat)
    ensures n <= |s|
    ensures n < |s| ==> s[n] in stops
    ensures forall k | 0 <= k < n :: s[k] !in stops
  {
    if s == "" || s[0] in stops then 0 else 1 + Span(s[1..], stops)
  }

  const NAME_STOPS: set<char> := {':', ','}

  predicate StartsWith(s: string, c: char) {
    s != "" && s[0] == c
  }

  /** A literal character, after white space. */
  function Literal(s: string, c: char): (r: Option<string>)
    ensures r.Some? ==> |r.value| < |s|
  {
    var t := DropSpaces(s);
    if StartsWith(t, c) then Some(t[1..]) else None
  }

  function Name(s: string, st: Storage): (r: Parse)
    ensures r.Match? ==> |r.rest| < |s|
  {
    var t := DropSpaces(s);
    var n := Span(t, NAME_STOPS);
    if n > 0 && n < |t| && t[n] == ':' then Match(t[n + 1..], Emit(st, Key(CStr(t[..n]))))
    else NoMatch(st)
  }

  function Type(s: string, st: Storage): (r: Parse)
    ensures r.Match? ==> |r.rest| < |s|
  {
    var t := DropSpaces(s);
    if !StartsWith(t, '!') then NoMatch(st)
    else
      var u := t[1..];
      var n := Span(u, {' '});
      if n > 0 && n < |u| then Match(u[n + 1..], st.(rType := u[..n])) else NoMatch(st)
  }

  /** The value action: one event for a known type, none for any other. */
  function Converted(st: Storage, text: string): Result<Storage> {
    var word := CStr(text);
    if st.rType == "str" then Success(Emit(st, Scalar(Str(word))))
    else if st.rType == "bool" then Success(Emit(st, Scalar(Bool(word == "true"))))
    else if st.rType == "double" then
      if ReadsAsDouble(word) then Success(Emit(st, Double(word))) else Failure(OtherError)
    else if st.rType == "null" then Success(Emit(st, Scalar(Null)))
    else if st.rType in {"uint", "int", "uint64_t", "int64_t"} then
      match ParseUnsigned(word)
      case Failure(e) => Failure(e)
      case Success(n) => Success(Emit(st, Scalar(Narrowed(st.rType, n))))
    else Success(st)
  }

  function Narrowed(rType: string, n: uint64): Scalar {
    if rType == "uint" then Uint(ToUint32(n))
    else if rType == "int" then Int(ToInt32(n))
    else if rType == "int64_t" then Int64(ToInt64(n))
    else Uint64(n)
  }

  function QuotedString(s: string, st: Storage): (r: Parse)
    ensures r.Match? ==> |r.rest| < |s|
  {
    var t := DropSpaces(s);
    if !StartsWith(t, '"') then NoMatch(st)
    else
      var u := t[1..];
      var n := Span(u, {'"'});
      if n == |u| then NoMatch(st)
      else match Converted(st, u[..n])
        case Failure(e) => Raise(e)
        case Success(next) => Match(u[n + 1..], next)
  }

  function SislValue(s: string, st: Storage): (r: Parse)
    ensures r.Match? ==> |r.rest| < |s|
    decreases |s|, 1
  {
    match QuotedString(s, st)
    case NoMatch(next) => Sisl(s, next)
    case other => other
  }

  function Grouping(s: string, st: Storage): (r: Parse)
    ensures r.Match? ==> |r.rest| < |s|
    decreases |s|, 0
  {
    match Name(s, st)
    case Match(afterName, named) =>
      (match Type(afterName, named)
       case Match(afterType, typed) => SislValue(afterType, typed)
       case other => other)
    case other => other
  }

  /** What follows the first grouping of grouping % ',': the list ends before a comma that no
      grouping follows, but the effects of trying remain. */
  function ListTail(s: string, st: Storage): (r: Parse)
    ensures !r.NoMatch?
    ensures r.Match? ==> |r.rest| <= |s|
    decreases |s|, 1
  {
    match Literal(s, ',')
    case None => Match(s, st)
    case Some(afterComma) =>
      match Grouping(afterComma, st)
      case Match(rest, next) => ListTail(rest, next)
      case NoMatch(next) => Match(s, next)
      case Raise(e) => Raise(e)
  }

  function GroupingList(s: string, st: Storage): (r: Parse)
    ensures r.Match? ==> |r.rest| < |s|
    decreases |s|, 1
  {
    match Grouping(s, st)
    case Match(rest, next) => ListTail(rest, next)
    case other => other
  }

  /** *(grouping % ','): after every list another one is tried. */
  function Lists(s: string, st: Storage): (r: Parse)
    ensures !r.NoMatch?
    ensures r.Match? ==> |r.rest| <= |s|
    decreases |s|, 2
  {
    match GroupingList(s, st)
    case Match(rest, next) => Lists(rest, next)
    case NoMatch(next) => Match(s, next)
    case Raise(e) => Raise(e)
  }

  function Sisl(s: string, st: Storage): (r: Parse)
    ensures r.Match? ==> |r.rest| < |s|
    decreases |s|, 0
  {
    match Literal(s, '{')
    case None => NoMatch(st)
    case Some(body) =>
      match Lists(body, Emit(st, StartObject))
      case Match(rest, next) =>
        (match Literal(rest, '}')
         case None => NoMatch(next)
         case Some(after) => Match(after, Emit(next, EndObject(0))))
      case other => other
  }

  /** parseSislToJson, as far as the events given to the JSON writer: the first character must
      be '{', the whole input must match up to trailing white space. */
  function ParseSisl(input: string): Result<seq<Event>> {
    if !StartsWith(input, '{') then Failure(RuntimeError)
    else match Sisl(input, Storage([], ""))
      case Match(rest, st) => if DropSpaces(rest) == "" then Success(st.events) else Failure(RuntimeError)
      case NoMatch(_) => Failure(RuntimeError)
      case Raise(e) => Failure(e)
  }
}
