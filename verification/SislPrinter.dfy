/** From SAX events to SISL text (src/SislTools/library/RapidJsonSislConverter.cpp). Each value
    is printed with a comma after it, and the end of an object overwrites the last one. */
module SislPrinter {
  import opened Common
  import opened SislTree
  import opened Decimal

  /** The string stream with its put position and its state bit, and the nesting counter. */
  datatype Printer = Printer(stream: string, put: nat, good: bool, nestingDepth: uint64)

  const INITIAL: Printer := Printer("", 0, true, 0)

  function TypeName(s: Scalar): string {
    match s
    case Null => "null"
    case Bool(_) => "bool"
    case Int(_) => "int"
    case Uint(_) => "uint"
    case Int64(_) => "int64_t"
    case Uint64(_) => "uint64_t"
    case Str(_) => "str"
  }

  function Text(s: Scalar): string {
    match s
    case Null => ""
    case Bool(b) => if b then "true" else "false"
    case Int(i) => Show(i)
    case Uint(u) => Show(u)
    case Int64(l) => Show(l)
    case Uint64(m) => Show(m)
    case Str(str) => CStr(str)
  }

  function Quoted(name: string, text: string): string {
    "!" + name + " \"" + text + "\""
  }

  /** operator<<: overwrites from the put position on, and does nothing once the stream failed. */
  function Insert(p: Printer, text: string): Printer {
    if !p.good then p
    else if p.put + |text| < |p.stream| && p.put <= |p.stream| then
      p.(stream := p.stream[..p.put] + text + p.stream[p.put + |text|..], put := p.put + |text|)
    else
      p.(stream := p.stream[..Min(p.put, |p.stream|)] + text, put := p.put + |text|)
  }

  /** seekp(-1, end): fails on an empty stream. */
  function SeekToLast(p: Printer): Printer {
    if p.stream == "" then p.(good := false) else if p.good then p.(put := |p.stream| - 1) else p
  }

  function Opening(outermost: bool): string {
    if outermost then "{" else "!obj {"
  }

  /** One handler call; an array makes the handler return false, which stops the reader. */
  function Handled(p: Printer, e: Event): Result<Printer> {
    match e
    case StartObject =>
      Success(Insert(p, Opening(p.nestingDepth == 0)).(nestingDepth := Increment64(p.nestingDepth)))
    case Key(key) => Success(Insert(p, CStr(key) + ": "))
    case Scalar(s) => Success(Insert(p, Quoted(TypeName(s), Text(s)) + ","))
    case Double(text) => Success(Insert(p, Quoted("double", text) + ","))
    case EndObject(memberCount) =>
      var closed := Insert(if memberCount > 0 then SeekToLast(p) else p, "}");
      var depth := Decrement64(p.nestingDepth);
      Success((if depth > 0 then Insert(closed, ",") else closed).(nestingDepth := depth))
    case StartArray => Failure(RuntimeError)
  }

  /** The reader's run over a whole event sequence. */
  function Fed(p: Printer, events: seq<Event>): Result<Printer>
    decreases |events|
  {
    if events == [] then Success(p)
    else match Handled(p, events[0])
      case Failure(e) => Failure(e)
      case Success(next) => Fed(next, events[1..])
  }

  class MyHandler {
    var stream: string
    var put: nat
    var good: bool
    var nestingDepth: uint64

    ghost function State(): Printer
      reads this
    {
      Printer(stream, put, good, nestingDepth)
    }

    constructor ()
      ensures State() == INITIAL
    {
      stream, put, good, nestingDepth := "", 0, true, 0;
    }

    method Put(text: string)
      modifies this
      ensures State() == Insert(old(State()), text)
    {
      if good {
        if put + |text| < |stream| && put <= |stream| {
          stream := stream[..put] + text + stream[put + |text|..];
        } else {
          stream := stream[..Min(put, |stream|)] + text;
        }
        put := put + |text|;
      }
    }

    method StartObject() returns (ok: bool)
      modifies this
      ensures ok && Success(State()) == Handled(old(State()), Event.StartObject)
    {
      var outermost := nestingDepth == 0;
      nestingDepth := Increment64(nestingDepth);
      Put(Opening(outermost));
      ok := true;
    }

    method EndObject(memberCount: nat) returns (ok: bool)
      modifies this
      ensures ok && Success(State()) == Handled(old(State()), Event.EndObject(memberCount))
    {
      if memberCount > 0 {
        if stream == "" {
          good := false;
        } else if good {
          put := |stream| - 1;
        }
      }
      Put("}");
      nestingDepth := Decrement64(nestingDepth);
      if nestingDepth > 0 {
        Put(",");
      }
      ok := true;
    }

    method Handle(e: Event) returns (ok: bool)
      modifies this
      ensures match Handled(old(State()), e)
              case Success(next) => ok && State() == next
              case Failure(_) => !ok
    {
      ok := true;
      match e
      case StartObject => ok := StartObject();
      case Key(key) => Put(CStr(key) + ": ");
      case Scalar(s) => Put(Quoted(TypeName(s), Text(s)) + ",");
      case Double(text) => Put(Quoted("double", text) + ",");
      case EndObject(memberCount) => ok := EndObject(memberCount);
      case StartArray => ok := false;
    }
  }

  /** parseJsonToSisl, from the events the JSON reader reports. */
  method PrintSisl(events: seq<Event>) returns (r: Result<string>)
    ensures r == match Fed(INITIAL, events)
                 case Success(p) => Success(p.stream)
                 case Failure(e) => Failure(RuntimeError)
  {
    var handler := new MyHandler();
    for i := 0 to |events|
      invariant Fed(handler.State(), events[i..]) == Fed(INITIAL, events)
    {
      assert events[i..][0] == events[i] && events[i..][1..] == events[i + 1..];
      var ok := handler.Handle(events[i]);
      if !ok {
        return Failure(RuntimeError);
      }
    }
    return Success(handler.stream);
  }

  /** The plain rendering: members joined by commas, none after the last. */
  function RenderObject(m: Members): string
    decreases m, 1
  {
    "{" + RenderMembers(m) + "}"
  }

  function RenderMembers(m: Members): string
    decreases m, 0
  {
    match m
    case NoMembers => ""
    case Member(key, value, NoMembers) => RenderMember(key, value)
    case Member(key, value, rest) => RenderMember(key, value) + "," + RenderMembers(rest)
  }

  function RenderMember(key: string, value: Value): string
    decreases value, 2
  {
    CStr(key) + ": " + RenderValue(value)
  }

  function RenderValue(v: Value): string
    decreases v, 1
  {
    match v
    case Leaf(s) => Quoted(TypeName(s), Text(s))
    case Object(inner) => "!obj " + RenderObject(inner)
  }

  /** What the buffer gains while members are being printed: a comma after every one. */
  function WithTrailingComma(m: Members): string {
    if m.NoMembers? then "" else RenderMembers(m) + ","
  }

  /** A printer whose put position is at the end of what it has printed. */
  predicate AtEnd(p: Printer) {
    p.good && p.put == |p.stream|
  }

  function Extended(p: Printer, text: string): Printer {
    p.(stream := p.stream + text, put := |p.stream + text|)
  }

  lemma InsertAtEnd(p: Printer, text: string)
    requires AtEnd(p)
    ensures Insert(p, text) == Extended(p, text)
  {
    assert p.stream[..|p.stream|] == p.stream;
  }

  lemma ExtendTwice(p: Printer, a: string, b: string)
    ensures Extended(Extended(p, a), b) == Extended(p, a + b)
  {
    assert p.stream + a + b == p.stream + (a + b);
  }

  lemma {:induction false} FedConcat(p: Printer, a: seq<Event>, b: seq<Event>)
    ensures Fed(p, a + b) == match Fed(p, a) case Success(q) => Fed(q, b) case Failure(e) => Failure(e)
    decreases |a|
  {
    if a == [] {
      assert a + b == b;
    } else {
      assert (a + b)[0] == a[0] && (a + b)[1..] == a[1..] + b;
      match Handled(p, a[0])
      case Failure(_) =>
      case Success(q) => FedConcat(q, a[1..], b);
    }
  }

  /** An array, wherever it is, is the one thing that makes printing fail. */
  lemma {:induction false} FailsForArraysOnly(p: Printer, events: seq<Event>)
    ensures Fed(p, events) == Failure(RuntimeError) <==> StartArray in events
    ensures Fed(p, events).Success? <==> StartArray !in events
    decreases |events|
  {
    if events != [] && Handled(p, events[0]).Success? {
      FailsForArraysOnly(Handled(p, events[0]).value, events[1..]);
    }
  }

  lemma FedOne(p: Printer, e: Event)
    ensures Fed(p, [e]) == Handled(p, e)
  {
    assert [e][1..] == [];
  }

  /** The end of an object takes the last comma away and puts "}" in its place. */
  lemma ClosedObject(p: Printer, m: Members)
    requires AtEnd(p) && p.nestingDepth > 0
    ensures Handled(Extended(p, WithTrailingComma(m)), EndObject(Count(m)))
         == Success(Extended(p, RenderMembers(m) + "}" + (if p.nestingDepth > 1 then "," else ""))
                      .(nestingDepth := p.nestingDepth - 1))
  {
    var q := Extended(p, WithTrailingComma(m));
    var back := if Count(m) > 0 then SeekToLast(q) else q;
    var body := p.stream + RenderMembers(m);
    if m.NoMembers? {
      InsertAtEnd(q, "}");
    } else {
      Reassociate(p.stream, RenderMembers(m), ",");
      BraceForComma(q, body);
    }
    var closed := Insert(back, "}");
    InsertAtEnd(closed, ",");
    Reassociate(p.stream, RenderMembers(m), "}");
    Reassociate(p.stream, RenderMembers(m) + "}", ",");
    NothingAdded(RenderMembers(m) + "}");
  }

  lemma NothingAdded(a: string)
    ensures a + "" == a
  {
  }

  lemma Reassociate(a: string, b: string, c: string)
    ensures a + b + c == a + (b + c)
  {
  }

  /** A brace written over a final comma. */
  lemma BraceForComma(q: Printer, body: string)
    requires AtEnd(q) && q.stream == body + ","
    ensures Insert(SeekToLast(q), "}").stream == body + "}" && AtEnd(Insert(SeekToLast(q), "}"))
    ensures Insert(SeekToLast(q), "}").nestingDepth == q.nestingDepth
  {
    assert q.stream[..|body|] == body;
  }

  lemma TrailingUnfold(key: string, value: Value, rest: Members)
    ensures CStr(key) + ": " + (RenderValue(value) + ",") + WithTrailingComma(rest)
         == WithTrailingComma(Member(key, value, rest))
  {
    var printed := CStr(key) + ": " + (RenderValue(value) + ",");
    assert printed == RenderMember(key, value) + ",";
    if rest.NoMembers? {
      assert printed + "" == RenderMembers(Member(key, value, rest)) + ",";
    } else {
      assert printed + (RenderMembers(rest) + ",") == RenderMember(key, value) + "," + RenderMembers(rest) + ",";
    }
  }

  lemma {:induction false} FedMembers(p: Printer, m: Members)
    requires AtEnd(p) && 0 < p.nestingDepth && p.nestingDepth + Depth(m) <= TWO_64
    ensures Fed(p, MemberEvents(m, true)) == Success(Extended(p, WithTrailingComma(m)))
    decreases m, 0
  {
    match m
    case NoMembers =>
      assert p.stream + "" == p.stream;
    case Member(key, value, rest) =>
      var named := Extended(p, CStr(key) + ": ");
      var valued := Extended(named, RenderValue(value) + ",");
      InsertAtEnd(p, CStr(key) + ": ");
      var valueEvents := match value case Leaf(s) => [Scalar(s)] case Object(inner) => ObjectEvents(inner, true);
      assert MemberEvents(m, true) == [Key(key)] + (valueEvents + MemberEvents(rest, true));
      FedConcat(p, [Key(key)], valueEvents + MemberEvents(rest, true));
      FedConcat(named, valueEvents, MemberEvents(rest, true));
      FedOne(p, Key(key));
      match value {
        case Leaf(s) =>
          InsertAtEnd(named, RenderValue(value) + ",");
          FedOne(named, Scalar(s));
        case Object(inner) =>
          FedObject(named, inner);
          assert "!obj " + RenderObject(inner) + "," == RenderValue(value) + ",";
      }
      FedMembers(valued, rest);
      ExtendTwice(p, CStr(key) + ": ", RenderValue(value) + ",");
      ExtendTwice(p, CStr(key) + ": " + (RenderValue(value) + ","), WithTrailingComma(rest));
      TrailingUnfold(key, value, rest);
  }

  /** An object as it stands in the buffer: the outermost one bare, others tagged and followed
      by a comma. */
  function Placed(outermost: bool, m: Members): string {
    if outermost then RenderObject(m) else "!obj " + RenderObject(m) + ","
  }

  lemma PlacedParts(outermost: bool, m: Members)
    ensures Opening(outermost) + (RenderMembers(m) + "}" + (if outermost then "" else ",")) == Placed(outermost, m)
  {
    if outermost {
      assert "{" + (RenderMembers(m) + "}" + "") == RenderObject(m);
    } else {
      assert "!obj {" + (RenderMembers(m) + "}" + ",") == "!obj " + RenderObject(m) + ",";
    }
  }

  lemma BeginObject(p: Printer)
    requires AtEnd(p)
    ensures Handled(p, StartObject)
         == Success(Extended(p, Opening(p.nestingDepth == 0)).(nestingDepth := Increment64(p.nestingDepth)))
  {
    InsertAtEnd(p, Opening(p.nestingDepth == 0));
  }

  lemma {:induction false} FedObject(p: Printer, m: Members)
    requires AtEnd(p) && p.nestingDepth + Depth(m) < TWO_64
    ensures Fed(p, ObjectEvents(m, true)) == Success(Extended(p, Placed(p.nestingDepth == 0, m)))
    decreases m, 1
  {
    var outermost := p.nestingDepth == 0;
    var begun := Extended(p, Opening(outermost)).(nestingDepth := Increment64(p.nestingDepth));
    var body, closing := MemberEvents(m, true), [EndObject(Count(m))];
    assert ObjectEvents(m, true) == [StartObject] + (body + closing);
    FedConcat(p, [StartObject], body + closing);
    BeginObject(p);
    FedOne(p, StartObject);
    FedConcat(begun, body, closing);
    FedMembers(begun, m);
    ClosedObject(begun, m);
    var rendered := RenderMembers(m) + "}" + (if outermost then "" else ",");
    FedOne(Extended(begun, WithTrailingComma(m)), EndObject(Count(m)));
    ExtendTwice(p, Opening(outermost), rendered);
    PlacedParts(outermost, m);
  }

  /** The comma-overwriting printer is the comma-joining rendering, for every object tree whose
      nesting fits the counter; the counter is back at 0 and the put position at the end. */
  lemma PrinterRenders(m: Members)
    requires Depth(m) < TWO_64
    ensures Fed(INITIAL, ObjectEvents(m, true)) == Success(Printer(RenderObject(m), |RenderObject(m)|, true, 0))
  {
    FedObject(INITIAL, m);
    assert "" + RenderObject(m) == RenderObject(m);
  }
}
