/** Object trees and the SAX events that pass between JSON and SISL. */
module SislTree {
  import opened Common

  datatype Scalar =
    | Null
    | Bool(b: bool)
    | Int(i: int32)
    | Uint(u: uint32)
    | Int64(l: int64)
    | Uint64(m: uint64)
    | Str(s: string)

  datatype Value = Leaf(scalar: Scalar) | Object(members: Members)

  /** The members of an object, in order. */
  datatype Members = NoMembers | Member(key: string, value: Value, rest: Members)

  datatype Event =
    | StartObject
    | Key(key: string)
    | Scalar(scalar: Scalar)
    | Double(text: string)
    | EndObject(memberCount: nat)
    | StartArray

  function Count(m: Members): nat {
    match m
    case NoMembers => 0
    case Member(_, _, rest) => 1 + Count(rest)
  }

  /** Levels of nesting below and including this object. */
  function Depth(m: Members): (d: nat)
    ensures 1 <= d
  {
    match m
    case NoMembers => 1
    case Member(_, Leaf(_), rest) => Depth(rest)
    case Member(_, Object(inner), rest) =>
      if Depth(inner) + 1 > Depth(rest) then Depth(inner) + 1 else Depth(rest)
  }

  /** The events of an object. A JSON reader reports the member count at its end; the SISL
      parser calls EndObject with the default count, 0. */
  function ObjectEvents(m: Members, counted: bool): seq<Event>
    decreases m, 1
  {
    [StartObject] + MemberEvents(m, counted) + [EndObject(if counted then Count(m) else 0)]
  }

  function MemberEvents(m: Members, counted: bool): seq<Event>
    decreases m, 0
  {
    match m
    case NoMembers => []
    case Member(key, Leaf(s), rest) => [Key(key), Scalar(s)] + MemberEvents(rest, counted)
    case Member(key, Object(inner), rest) => [Key(key)] + ObjectEvents(inner, counted) + MemberEvents(rest, counted)
  }

  /** A const char* ends at the first NUL. */
  function CStr(s: string): string {
    if s == "" || s[0] == '\0' then "" else [s[0]] + CStr(s[1..])
  }

  lemma CStrClean(s: string)
    requires '\0' !in s
    ensures CStr(s) == s
  {
  }

  lemma CStrEndsAtNul(s: string)
    ensures '\0' !in CStr(s)
    ensures CStr(s) <= s
  {
  }
}
