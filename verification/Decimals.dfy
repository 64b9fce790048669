/** Decimal numerals: how fmt prints them with %d and how fmt.Sscanf reads them back with %d. */
module Decimals {
  import opened Bytes

  const INT64_MIN := -0x8000_0000_0000_0000
  const INT64_MAX := 0x7fff_ffff_ffff_ffff

  predicate IsInt64(i: int) {
    INT64_MIN <= i <= INT64_MAX
  }

  predicate IsDigit(c: char) {
    '0' <= c <= '9'
  }

  function DigitValue(c: char): (d: nat)
    requires IsDigit(c)
    ensures d < 10
  {
    c as int - '0' as int
  }

  function Digit(d: nat): (c: char)
    requires d < 10
    ensures IsDigit(c) && DigitValue(c) == d
  {
    ('0' as int + d) as char
  }

  /** White space to fmt other than the newline, among the characters made from one byte. */
  predicate IsBlank(c: char) {
    c in {'\t', '\U{0B}', '\U{0C}', '\r', ' ', '\U{85}', '\U{A0}'}
  }

  function SkipBlanks(s: string): (t: string)
    ensures |t| <= |s| && (t == "" || !IsBlank(t[0]))
  {
    if s != "" && IsBlank(s[0]) then SkipBlanks(s[1..]) else s
  }

  predicate AllDigits(s: string) {
    forall c :: c in s ==> IsDigit(c)
  }

  /** The digits `s` starts with. */
  function Digits(s: string): (d: string)
    ensures AllDigits(d) && |d| <= |s|
  {
    if s != "" && IsDigit(s[0]) then [s[0]] + Digits(s[1..]) else ""
  }

  function Magnitude(digits: string): nat
    requires AllDigits(digits)
  {
    if digits == "" then 0
    else Magnitude(digits[..|digits| - 1]) * 10 + DigitValue(digits[|digits| - 1])
  }

  /** The value fmt.Sscanf(s, "%d") assigns: blanks, an optional sign and a run of digits, whatever follows;
      a newline among the blanks, no digit, or a value over 64 bits is an error. */
  function Scan(s: string): (r: Option<int>)
  {
    var t := SkipBlanks(s);
    var digits := Digits(t[|SignOf(t)|..]);
    var magnitude: int := Magnitude(digits);
    var value := if SignOf(t) == "-" then -magnitude else magnitude;
    if digits != "" && IsInt64(value) then Some(value) else None
  }

  /** The sign `s` starts with, if any. */
  function SignOf(s: string): (sign: string)
    ensures sign in {"", "+", "-"} && |sign| <= |s| && s == sign + s[|sign|..]
  {
    if s != "" && s[0] == '+' then "+" else if s != "" && s[0] == '-' then "-" else ""
  }

  /** A text that starts with a digit reads as a natural number. */
  lemma ScanUnsigned(s: string)
    requires s != "" && IsDigit(s[0]) && Scan(s).Some?
    ensures 0 <= Scan(s).value <= INT64_MAX
  {
    assert SkipBlanks(s) == s;
  }

  /** What %d prints for a natural number. */
  function Decimal(n: nat): (s: string)
    ensures s != "" && AllDigits(s) && Magnitude(s) == n
  {
    if n < 10 then [Digit(n)]
    else
      var s := Decimal(n / 10) + [Digit(n % 10)];
      assert s[..|s| - 1] == Decimal(n / 10);
      s
  }

  /** What %d prints. */
  function Format(i: int): (s: string)
    ensures s != "" && (IsDigit(s[0]) || s[0] == '-') && AllDigits(s[1..])
  {
    if i < 0 then "-" + Decimal(-i) else Decimal(i)
  }

  lemma {:induction false} DigitsOfDigits(s: string, t: string)
    requires AllDigits(s) && (t == "" || !IsDigit(t[0]))
    ensures Digits(s + t) == s
  {
    if s == "" {
      assert s + t == t;
    } else {
      assert (s + t)[1..] == s[1..] + t;
      DigitsOfDigits(s[1..], t);
      assert s == [s[0]] + s[1..];
    }
  }

  /** Printing and scanning a number gives it back exactly when it fits in 64 bits. */
  lemma {:induction false} ScanFormat(i: int)
    ensures Scan(Format(i)) == if IsInt64(i) then Some(i) else None
  {
    var s := Format(i);
    assert SkipBlanks(s) == s;
    var digits := if i < 0 then s[1..] else s;
    assert digits == Decimal(if i < 0 then -i else i);
    DigitsOfDigits(digits, "");
    assert digits + "" == digits;
  }

  // ----- shortest form -----

  /** A numeral of BEP 3: digits, and no zero in front of another digit. */
  predicate IsNumeral(s: string) {
    s != "" && AllDigits(s) && (s[0] == '0' ==> |s| == 1)
  }

  lemma {:induction false} MagnitudeFirst(s: string)
    requires s != "" && AllDigits(s)
    ensures s[0] != '0' ==> Magnitude(s) > 0
  {
    if |s| > 1 {
      MagnitudeFirst(s[..|s| - 1]);
    }
  }

  lemma {:induction false} DecimalIsNumeral(n: nat)
    ensures IsNumeral(Decimal(n))
  {
    if n >= 10 {
      DecimalIsNumeral(n / 10);
    }
  }

  lemma DecimalNext(front: nat, last: char)
    requires IsDigit(last)
    ensures Decimal(10 * front + DigitValue(last)) == if front == 0 then [last] else Decimal(front) + [last]
  {
    var n := 10 * front + DigitValue(last);
    DigitUnique(last);
    assert n / 10 == front && n % 10 == DigitValue(last);
  }

  lemma NumeralFront(s: string)
    requires IsNumeral(s) && |s| > 1
    ensures IsNumeral(s[..|s| - 1]) && Magnitude(s[..|s| - 1]) > 0
  {
    var front := s[..|s| - 1];
    assert forall c :: c in front ==> c in s;
    assert front[0] == s[0];
    MagnitudeFirst(front);
  }

  /** There is one numeral for each natural number, and %d prints it. */
  lemma {:induction false} NumeralUnique(s: string)
    requires IsNumeral(s)
    ensures s == Decimal(Magnitude(s))
  {
    var front, last := s[..|s| - 1], s[|s| - 1];
    assert last in s && s == front + [last];
    if |s| > 1 {
      NumeralFront(s);
      NumeralUnique(front);
    }
    DecimalNext(Magnitude(front), last);
  }

  lemma DigitUnique(c: char)
    requires IsDigit(c)
    ensures Digit(DigitValue(c)) == c
  {
  }

  /** The numeral of an integer: a minus sign in front of that of its magnitude when it is negative. */
  predicate IsNumeralOf(s: string, i: int) {
    if i < 0 then s != "" && s[0] == '-' && IsNumeral(s[1..]) && Magnitude(s[1..]) == -i
    else IsNumeral(s) && Magnitude(s) == i
  }

  /** What %d prints is the one numeral of the integer. */
  lemma FormatIsNumeral(s: string, i: int)
    ensures IsNumeralOf(s, i) <==> s == Format(i)
  {
    DecimalIsNumeral(if i < 0 then -i else i);
    if IsNumeralOf(s, i) {
      if i < 0 {
        NumeralUnique(s[1..]);
        assert s == "-" + s[1..];
      } else {
        NumeralUnique(s);
      }
    }
    assert i < 0 ==> Format(i)[1..] == Decimal(-i);
  }

  // ----- what is scanned -----

  /** Blanks, a sign or none, digits, and anything that is not another digit: a text fmt reads as i. */
  predicate ReadsAs(blanks: string, sign: string, digits: string, tail: string, i: int) {
    && (forall c :: c in blanks ==> IsBlank(c))
    && sign in {"", "+", "-"}
    && digits != "" && AllDigits(digits) && (tail == "" || !IsDigit(tail[0]))
    && i == (if sign == "-" then 0 - Magnitude(digits) else Magnitude(digits)) && IsInt64(i)
  }

  lemma {:induction false} SkipAllBlanks(blanks: string, s: string)
    requires forall c :: c in blanks ==> IsBlank(c)
    requires s != "" && !IsBlank(s[0])
    ensures SkipBlanks(blanks + s) == s
  {
    if blanks == "" {
      assert blanks + s == s;
    } else {
      assert (blanks + s)[1..] == blanks[1..] + s;
      SkipAllBlanks(blanks[1..], s);
    }
  }

  /** Scanning takes in exactly such texts, so signs, blanks and leading zeros in front and any text behind are fine,
      and a newline, a missing digit or a value over 64 bits is not. */
  lemma ReadsScan(blanks: string, sign: string, digits: string, tail: string, i: int)
    requires ReadsAs(blanks, sign, digits, tail, i)
    ensures Scan(blanks + sign + digits + tail) == Some(i)
  {
    var t := sign + (digits + tail);
    JoinParts(blanks, sign, digits, tail);
    assert digits[0] in digits;
    SkipAllBlanks(blanks, t);
    DigitsOfDigits(digits, tail);
    SignInFront(sign, digits + tail);
  }

  lemma SignInFront(sign: string, rest: string)
    requires sign in {"", "+", "-"} && rest != "" && IsDigit(rest[0])
    ensures SignOf(sign + rest) == sign && (sign + rest)[|sign|..] == rest
  {
    assert sign == "" ==> sign + rest == rest;
  }

  lemma {:induction false} BlanksInFront(s: string) returns (blanks: string)
    ensures s == blanks + SkipBlanks(s) && forall c :: c in blanks ==> IsBlank(c)
  {
    blanks := "";
    if s != "" && IsBlank(s[0]) {
      var more := BlanksInFront(s[1..]);
      blanks := [s[0]] + more;
      assert s == [s[0]] + s[1..];
    }
  }

  lemma {:induction false} DigitsInFront(s: string) returns (tail: string)
    ensures s == Digits(s) + tail && (tail == "" || !IsDigit(tail[0]))
  {
    tail := s;
    if s != "" && IsDigit(s[0]) {
      tail := DigitsInFront(s[1..]);
      assert s == [s[0]] + s[1..];
    }
  }

  lemma ScanReads(s: string) returns (blanks: string, sign: string, digits: string, tail: string)
    requires Scan(s).Some?
    ensures s == blanks + sign + digits + tail && ReadsAs(blanks, sign, digits, tail, Scan(s).value)
  {
    blanks := BlanksInFront(s);
    var t := SkipBlanks(s);
    sign := SignOf(t);
    var rest := t[|sign|..];
    digits := Digits(rest);
    tail := DigitsInFront(rest);
    JoinParts(blanks, sign, digits, tail);
  }

  lemma JoinParts(blanks: string, sign: string, digits: string, tail: string)
    ensures blanks + (sign + (digits + tail)) == blanks + sign + digits + tail
  {
  }
}
