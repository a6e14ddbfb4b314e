/** Printing integers in decimal and reading them back the way stoul and stoull do. */
module Decimal {
  import opened Common

  predicate IsSpace(c: char) {
    c == ' ' || '\t' <= c <= '\r'
  }

  predicate IsDigit(c: char) {
    '0' <= c <= '9'
  }

  function DigitValue(c: char): (d: nat)
    requires IsDigit(c)
    ensures d < 10
  {
    c as int - '0' as int
  }

  function Digit(d: nat): (c: char)
    requires d < 10
    ensures IsDigit(c) && DigitValue(c) == d
  {
    (d + '0' as int) as char
  }

  /** operator<< for a non-negative integer. */
  function Digits(n: nat): (s: string)
    ensures |s| > 0 && forall c | c in s :: IsDigit(c)
  {
    if n < 10 then [Digit(n)] else Digits(n / 10) + [Digit(n % 10)]
  }

  /** operator<< for a signed integer. */
  function Show(n: int): string {
    if n < 0 then "-" + Digits(-n) else Digits(n)
  }

  /** The value of the leading digits of a string, continuing from an accumulated value. */
  function DigitPrefix(s: string, value: nat): nat {
    if s != "" && IsDigit(s[0]) then DigitPrefix(s[1..], 10 * value + DigitValue(s[0])) else value
  }

  function DropSpaces(s: string): (r: string)
    ensures |r| <= |s|
    ensures r != "" ==> !IsSpace(r[0])
  {
    if s != "" && IsSpace(s[0]) then DropSpaces(s[1..]) else s
  }

  /** stoul and stoull with 64-bit unsigned long: white space, an optional sign, digits. A
      minus sign negates modulo 2^64. No digits is std::invalid_argument and too large a
      value std::out_of_range; neither is a std::runtime_error. */
  function ParseUnsigned(text: string): Result<uint64> {
    var s := DropSpaces(text);
    var negative := s != "" && s[0] == '-';
    var signed := negative || (s != "" && s[0] == '+');
    var digits := if signed then s[1..] else s;
    if digits == "" || !IsDigit(digits[0]) then Failure(OtherError)
    else
      var value := DigitPrefix(digits, 0);
      if value >= TWO_64 then Failure(OtherError)
      else Success(if negative then (TWO_64 - value) % TWO_64 else value)
  }

  /** "inf" or "nan", in any case. */
  predicate NamesNoNumber(s: string) {
    && |s| >= 3
    && ((s[0] in "iI" && s[1] in "nN" && s[2] in "fF") || (s[0] in "nN" && s[1] in "aA" && s[2] in "nN"))
  }

  function Unsigned(text: string): string {
    var s := DropSpaces(text);
    if s != "" && (s[0] == '-' || s[0] == '+') then s[1..] else s
  }

  /** What stod finds a double at the front of; anything else is std::invalid_argument. */
  predicate ReadsAsDouble(text: string) {
    var s := Unsigned(text);
    (s != "" && IsDigit(s[0])) || (|s| >= 2 && s[0] == '.' && IsDigit(s[1])) || NamesNoNumber(s)
  }

  /** The narrowing casts of the value action. */
  function ToUint32(n: uint64): uint32 {
    n % TWO_32
  }

  function ToInt32(n: uint64): int32 {
    var low := n % TWO_32;
    if low < 0x8000_0000 then low else low - TWO_32
  }

  function ToInt64(n: uint64): int64 {
    if n < 0x8000_0000_0000_0000 then n else n - TWO_64
  }

  function Pow10(k: nat): nat {
    if k == 0 then 1 else 10 * Pow10(k - 1)
  }

  lemma ShiftedValue(value: nat, power: nat, n: nat)
    ensures 10 * (value * power + n / 10) + n % 10 == value * (10 * power) + n
  {
    assert value * (10 * power) == 10 * (value * power);
  }

  /** Reading digits from left to right undoes writing them from right to left. */
  lemma {:induction false} DigitPrefixOfDigits(n: nat, tail: string, value: nat)
    ensures DigitPrefix(Digits(n) + tail, value) == DigitPrefix(tail, value * Pow10(|Digits(n)|) + n)
  {
    if n < 10 {
      assert Digits(n) + tail == [Digit(n)] + tail;
      assert ([Digit(n)] + tail)[1..] == tail;
    } else {
      var last := [Digit(n % 10)];
      assert Digits(n) + tail == Digits(n / 10) + (last + tail);
      DigitPrefixOfDigits(n / 10, last + tail, value);
      assert (last + tail)[1..] == tail;
      var power := Pow10(|Digits(n / 10)|);
      ShiftedValue(value, power, n);
    }
  }

  lemma DigitsRoundTrip(n: nat)
    ensures DigitPrefix(Digits(n), 0) == n
  {
    DigitPrefixOfDigits(n, "", 0);
    assert Digits(n) + "" == Digits(n);
  }

  /** What stoul makes of a printed integer: itself, or its complement to 2^64. */
  lemma ParseShown(n: int)
    requires -TWO_64 < n < TWO_64
    ensures ParseUnsigned(Show(n)) == Success(if n < 0 then n + TWO_64 else n)
  {
    if n < 0 {
      var s := "-" + Digits(-n);
      assert DropSpaces(s) == s && s[1..] == Digits(-n);
      DigitsRoundTrip(-n);
    } else {
      var s := Digits(n);
      assert s[0] in s;
      assert DropSpaces(s) == s;
      DigitsRoundTrip(n);
    }
  }

  lemma CastsUndoComplement(i: int32, u: uint32, l: int64)
    ensures ToInt32(if i < 0 then i + TWO_64 else i) == i
    ensures ToUint32(u) == u
    ensures ToInt64(if l < 0 then l + TWO_64 else l) == l
  {
    if i < 0 {
      assert i + TWO_64 == 0xffff_ffff * TWO_32 + (i + TWO_32);
    }
  }

  /** Every integer of the four SISL integer types survives printing, the unsigned parse and
      the narrowing cast, negative ones by way of 2^64 - k. */
  lemma IntegersSurvive(i: int32, u: uint32, l: int64, m: uint64)
    ensures ParseUnsigned(Show(i)).Success? && ToInt32(ParseUnsigned(Show(i)).value) == i
    ensures ParseUnsigned(Show(u)).Success? && ToUint32(ParseUnsigned(Show(u)).value) == u
    ensures ParseUnsigned(Show(l)).Success? && ToInt64(ParseUnsigned(Show(l)).value) == l
    ensures ParseUnsigned(Show(m)) == Success(m)
  {
    CastsUndoComplement(i, u, l);
    ParseShown(i);
    ParseShown(u);
    ParseShown(l);
    ParseShown(m);
  }
}
