/** The words of SISL, spelled out: how the printer writes every value, and which numbers the parser
    reads, both in terms of characters alone. */
module SislLexical {
  import opened Common
  import opened SislTree
  import opened Decimal
  import opened SislPrinter
  import opened SislGrammar

  predicate Digital(s: string) {
    forall c | c in s :: c in "0123456789"
  }

  /** The value of a row of decimal digits, the last one counting once. */
  function NumeralValue(s: string): nat
    requires Digital(s)
  {
    if s == "" then 0 else 10 * NumeralValue(s[..|s| - 1]) + DigitOf(s[|s| - 1])
  }

  function DigitOf(c: char): nat
    requires c in "0123456789"
  {
    match c
    case '0' => 0
    case '1' => 1
    case '2' => 2
    case '3' => 3
    case '4' => 4
    case '5' => 5
    case '6' => 6
    case '7' => 7
    case '8' => 8
    case _ => 9
  }

  /** The decimal numeral of a number: no zeros in front, except that of 0 itself. */
  predicate IsNumeral(s: string, n: nat) {
    s != "" && Digital(s) && NumeralValue(s) == n && (|s| > 1 ==> s[0] != '0')
  }

  /** An optional minus sign and a numeral. */
  predicate SpellsInteger(s: string, n: int) {
    if n < 0 then s != "" && s[0] == '-' && IsNumeral(s[1..], -n) else IsNumeral(s, n)
  }

  /** The text of a scalar value, type and quotes included. */
  ghost predicate SpellsScalar(t: string, s: Scalar) {
    match s
    case Null => t == "!null \"\""
    case Bool(b) => t == if b then "!bool \"true\"" else "!bool \"false\""
    case Int(i) => exists n :: t == "!int \"" + n + "\"" && SpellsInteger(n, i)
    case Uint(u) => exists n :: t == "!uint \"" + n + "\"" && SpellsInteger(n, u)
    case Int64(l) => exists n :: t == "!int64_t \"" + n + "\"" && SpellsInteger(n, l)
    case Uint64(m) => exists n :: t == "!uint64_t \"" + n + "\"" && SpellsInteger(n, m)
    case Str(str) => exists word :: t == "!str \"" + word + "\"" && UpToNul(word, str)
  }

  /** All of a string before its first NUL. */
  predicate UpToNul(word: string, s: string) {
    '\0' !in word && word <= s && (word == s || s[|word|] == '\0')
  }

  /** The text of an object: its members in order, each a key, a colon, a space and a value, with
      commas between them and nothing else, in braces. */
  ghost predicate SpellsObject(t: string, m: Members)
    decreases m, 2
  {
    exists inner :: t == "{" + inner + "}" && SpellsMembers(inner, m)
  }

  ghost predicate SpellsMembers(t: string, m: Members)
    decreases m, 1
  {
    match m
    case NoMembers => t == ""
    case Member(key, value, NoMembers) => SpellsMember(t, key, value)
    case Member(key, value, rest) =>
      exists first, more :: t == first + "," + more && SpellsMember(first, key, value) && SpellsMembers(more, rest)
  }

  ghost predicate SpellsMember(t: string, key: string, value: Value)
    decreases value, 4
  {
    exists word, spelled :: t == word + ": " + spelled && UpToNul(word, key) && SpellsValue(spelled, value)
  }

  ghost predicate SpellsValue(t: string, v: Value)
    decreases v, 3
  {
    match v
    case Leaf(s) => SpellsScalar(t, s)
    case Object(members) => exists inner :: t == "!obj " + inner && SpellsObject(inner, members)
  }

  lemma DigitSpelled(d: nat)
    requires d < 10
    ensures Digit(d) in "0123456789" && DigitOf(Digit(d)) == d
  {
    assert Digit(0) == '0' && Digit(1) == '1' && Digit(2) == '2' && Digit(3) == '3' && Digit(4) == '4';
    assert Digit(5) == '5' && Digit(6) == '6' && Digit(7) == '7' && Digit(8) == '8' && Digit(9) == '9';
  }

  lemma {:induction false} DigitsSpelled(n: nat)
    ensures IsNumeral(Digits(n), n) && (n > 0 ==> Digits(n)[0] != '0')
  {
    DigitSpelled(n % 10);
    var last := [Digit(n % 10)];
    if n < 10 {
      assert last[..0] == "";
    } else {
      DigitsSpelled(n / 10);
      assert (Digits(n / 10) + last)[..|Digits(n / 10)|] == Digits(n / 10);
    }
  }

  lemma ShownSpelled(n: int)
    ensures SpellsInteger(Show(n), n)
  {
    if n < 0 {
      DigitsSpelled(-n);
      assert ("-" + Digits(-n))[1..] == Digits(-n);
    } else {
      DigitsSpelled(n);
    }
  }

  lemma {:induction false} CStrSpelled(s: string)
    ensures UpToNul(CStr(s), s)
  {
    if s != "" && s[0] != '\0' {
      CStrSpelled(s[1..]);
      assert CStr(s)[1..] == CStr(s[1..]);
    }
  }

  /** The types, as they are written. */
  lemma TypesSpelled()
    ensures "!" + "null" + " \"" == "!null \"" && "!" + "bool" + " \"" == "!bool \""
    ensures "!" + "int" + " \"" == "!int \"" && "!" + "uint" + " \"" == "!uint \""
    ensures "!" + "int64_t" + " \"" == "!int64_t \"" && "!" + "uint64_t" + " \"" == "!uint64_t \""
    ensures "!" + "str" + " \"" == "!str \""
  {
  }

  lemma NullSpelled()
    ensures "!null \"" + "" + "\"" == "!null \"\""
  {
  }

  lemma BoolSpelled(b: bool)
    ensures "!bool \"" + Text(Bool(b)) + "\"" == if b then "!bool \"true\"" else "!bool \"false\""
  {
  }

  lemma WrittenScalar(s: Scalar)
    ensures SpellsScalar(RenderValue(Leaf(s)), s)
  {
    TypesSpelled();
    match s
    case Null => NullSpelled();
    case Bool(b) => BoolSpelled(b);
    case Int(i) => ShownSpelled(i);
    case Uint(u) => ShownSpelled(u);
    case Int64(l) => ShownSpelled(l);
    case Uint64(m) => ShownSpelled(m);
    case Str(str) => CStrSpelled(str);
  }

  lemma {:induction false} WrittenValue(v: Value)
    ensures SpellsValue(RenderValue(v), v)
    decreases v, 1
  {
    match v
    case Leaf(s) => WrittenScalar(s);
    case Object(members) => WrittenObject(members);
  }

  lemma {:induction false} WrittenObject(m: Members)
    ensures SpellsObject(RenderObject(m), m)
    decreases m, 1
  {
    WrittenMembers(m);
  }

  lemma {:induction false} WrittenMembers(m: Members)
    ensures SpellsMembers(RenderMembers(m), m)
    decreases m, 0
  {
    match m
    case NoMembers =>
    case Member(key, value, rest) =>
      CStrSpelled(key);
      WrittenValue(value);
      assert SpellsMember(RenderMember(key, value), key, value);
      if !rest.NoMembers? {
        WrittenMembers(rest);
      }
  }

  /** What the printer writes for an object, spelled out. With the parser's grammar, which takes each
      text to one value, no other text would do. */
  lemma PrintedIsSpelled(m: Members)
    requires Depth(m) < TWO_64
    ensures var printed := Fed(INITIAL, ObjectEvents(m, true));
            printed.Success? && SpellsObject(printed.value.stream, m)
  {
    PrinterRenders(m);
    WrittenObject(m);
  }

  /** What one handler call adds at the end of the buffer for a value. */
  lemma ValueIsSpelled(p: Printer, s: Scalar) returns (t: string)
    requires AtEnd(p)
    ensures SpellsScalar(t, s)
    ensures Handled(p, Scalar(s)) == Success(Extended(p, t + ","))
  {
    t := RenderValue(Leaf(s));
    WrittenScalar(s);
    InsertAtEnd(p, t + ",");
  }

  lemma DoubleIsSpelled(p: Printer, text: string)
    requires AtEnd(p)
    ensures Handled(p, Double(text)) == Success(Extended(p, "!double \"" + text + "\","))
  {
    assert Quoted("double", text) + "," == "!double \"" + text + "\",";
    InsertAtEnd(p, Quoted("double", text) + ",");
  }

  /** Reading digits from the left, continuing from an accumulated value. */
  lemma {:induction false} DigitsRead(digits: string, rest: string, value: nat)
    requires Digital(digits)
    ensures DigitPrefix(digits + rest, value) == DigitPrefix(rest, value * Pow10(|digits|) + NumeralValue(digits))
    decreases |digits|
  {
    if digits == "" {
      assert digits + rest == rest;
    } else {
      var n := |digits| - 1;
      var front, last := digits[..n], digits[n];
      assert last in digits;
      assert digits + rest == front + ([last] + rest);
      DigitsRead(front, [last] + rest, value);
      assert ([last] + rest)[1..] == rest;
      LastDigit(last);
      ShiftedBy(value, Pow10(n), NumeralValue(front), DigitOf(last));
    }
  }

  lemma LastDigit(c: char)
    requires c in "0123456789"
    ensures IsDigit(c) && DigitValue(c) == DigitOf(c)
  {
  }

  lemma ShiftedBy(value: nat, power: nat, n: nat, d: nat)
    ensures 10 * (value * power + n) + d == value * (10 * power) + (10 * n + d)
  {
    assert value * (10 * power) == 10 * (value * power);
  }

  lemma NoDigitRead(rest: string, value: nat)
    requires rest == "" || rest[0] !in "0123456789"
    ensures DigitPrefix(rest, value) == value
  {
    assert rest != "" ==> !IsDigit(rest[0]);
  }

  /** White space, and a sign or none, before something that is neither. */
  predicate Leads(space: string, sign: string, rest: string) {
    && Blank(space) && (sign == "" || sign == "+" || sign == "-")
    && (sign == "" && rest != "" ==> rest[0] !in WHITE_SPACE && rest[0] != '+' && rest[0] != '-')
  }

  lemma SignRead(space: string, sign: string, rest: string)
    requires Leads(space, sign, rest)
    ensures DropSpaces(space + (sign + rest)) == sign + rest && Unsigned(space + (sign + rest)) == rest
  {
    if sign == "" {
      assert sign + rest == rest;
    } else {
      assert (sign + rest)[1..] == rest;
    }
    SpacesSkipped(space, sign + rest);
  }

  /** How the parser reads an integer: as many digits as there are, their value, which must be less
      than 2^64, and with a minus sign 2^64 less it; whatever follows is ignored. */
  lemma NumberRead(space: string, sign: string, digits: string, rest: string)
    requires Leads(space, sign, digits + rest) && digits != "" && Digital(digits)
    requires rest == "" || rest[0] !in "0123456789"
    ensures ParseUnsigned(space + (sign + (digits + rest)))
         == if NumeralValue(digits) >= TWO_64 then Failure(OtherError)
            else Success(if sign == "-" then (TWO_64 - NumeralValue(digits)) % TWO_64 else NumeralValue(digits))
  {
    SignRead(space, sign, digits + rest);
    NumeralRead(digits, rest);
  }

  lemma NumeralRead(digits: string, rest: string)
    requires digits != "" && Digital(digits) && (rest == "" || rest[0] !in "0123456789")
    ensures IsDigit((digits + rest)[0]) && DigitPrefix(digits + rest, 0) == NumeralValue(digits)
  {
    DigitsRead(digits, rest, 0);
    NoDigitRead(rest, NumeralValue(digits));
    assert digits[0] in digits;
    LastDigit(digits[0]);
  }

  /** ... and without a digit there it throws. */
  lemma NoNumberRead(space: string, sign: string, rest: string)
    requires Leads(space, sign, rest) && (rest == "" || rest[0] !in "0123456789")
    ensures ParseUnsigned(space + (sign + rest)) == Failure(OtherError)
  {
    SignRead(space, sign, rest);
    assert rest != "" ==> !IsDigit(rest[0]);
  }

  /** What is taken for a double: a digit, a point and a digit, an infinity or a NaN in any case. */
  lemma DoubleReadIff(space: string, sign: string, rest: string)
    requires Leads(space, sign, rest)
    ensures ReadsAsDouble(space + (sign + rest))
       <==> || (rest != "" && rest[0] in "0123456789")
            || (|rest| > 1 && rest[0] == '.' && rest[1] in "0123456789")
            || (|rest| > 2 && rest[0] in {'i', 'I'} && rest[1] in {'n', 'N'} && rest[2] in {'f', 'F'})
            || (|rest| > 2 && rest[0] in {'n', 'N'} && rest[1] in {'a', 'A'} && rest[2] in {'n', 'N'})
  {
    SignRead(space, sign, rest);
    assert forall c :: IsDigit(c) <==> c in "0123456789";
  }

  /** The narrowing casts keep what the value is modulo 2^32 or 2^64, within the type's range. */
  lemma CastsWrap(n: uint64)
    ensures (n - ToUint32(n)) % TWO_32 == 0 && (n - ToInt32(n)) % TWO_32 == 0 && (n - ToInt64(n)) % TWO_64 == 0
  {
  }
}
