/** Numbers as Go converts them, and as its fmt and strconv packages write and read them. */
module Decimal {

  datatype Option<+T> = None | Some(value: T)

  const MAX_INT64: int := 0x7fff_ffff_ffff_ffff
  const MIN_INT64: int := -0x8000_0000_0000_0000

  // int64(x): truncation towards zero.
  function Truncate(x: real): int {
    if x < 0.0 then -((-x).Floor) else x.Floor
  }

  predicate IsDigit(c: char) {
    '0' <= c <= '9'
  }

  function DigitChar(d: nat): (c: char)
    requires d < 10
    ensures IsDigit(c) && DigitValue(c) == d
  {
    ('0' as int + d) as char
  }

  function DigitValue(c: char): (d: nat)
    requires IsDigit(c)
    ensures d < 10
  {
    c as int - '0' as int
  }

  predicate AllDigits(s: string) {
    forall i :: 0 <= i < |s| ==> IsDigit(s[i])
  }

  // The numeral of a natural number, without leading zeros.
  function Digits(n: nat): (s: string)
    ensures s != [] && AllDigits(s)
  {
    if n < 10 then [DigitChar(n)] else Digits(n / 10) + [DigitChar(n % 10)]
  }

  // The number a string of digits stands for; leading zeros are allowed.
  function Value(s: string): nat
    requires AllDigits(s)
  {
    if s == [] then 0 else 10 * Value(s[..|s| - 1]) + DigitValue(s[|s| - 1])
  }

  lemma {:induction false} ValueOfDigits(n: nat)
    ensures Value(Digits(n)) == n
  {
    if n >= 10 {
      ValueOfDigits(n / 10);
      var d := Digits(n);
      assert d[..|d| - 1] == Digits(n / 10);
      assert d[|d| - 1] == DigitChar(n % 10);
    }
  }

  lemma {:induction false} LeadingZero(s: string)
    requires AllDigits(s)
    ensures AllDigits("0" + s) && Value("0" + s) == Value(s)
  {
    var z := "0" + s;
    if s == [] {
      assert z == "0" && z[..0] == [];
    } else {
      LeadingZero(s[..|s| - 1]);
      assert z[..|z| - 1] == "0" + s[..|s| - 1];
      assert z[|z| - 1] == s[|s| - 1];
    }
  }

  // %d
  function FormatInt(i: int): (s: string)
    ensures s != []
  {
    if i < 0 then "-" + Digits(-i) else Digits(i)
  }

  // %02d, for numbers that are not negative
  function Pad2(n: nat): (s: string)
    ensures s != [] && AllDigits(s)
  {
    if n < 10 then "0" + Digits(n) else Digits(n)
  }

  lemma ValueOfPad2(n: nat)
    ensures Value(Pad2(n)) == n
  {
    ValueOfDigits(n);
    if n < 10 {
      LeadingZero(Digits(n));
    }
  }

  // strconv.Atoi: an optional sign, at least one digit, the range of int64.
  function Atoi(s: string): Option<int> {
    if s != [] && (s[0] == '-' || s[0] == '+') then InRange(s[1..], s[0] == '-')
    else InRange(s, false)
  }

  function InRange(digits: string, negative: bool): (r: Option<int>) {
    if digits == [] || !AllDigits(digits) then None
    else
      var v: int := if negative then -(Value(digits) as int) else Value(digits);
      if MIN_INT64 <= v <= MAX_INT64 then Some(v) else None
  }

  lemma AtoiOfDigits(s: string)
    requires s != [] && AllDigits(s) && Value(s) <= MAX_INT64
    ensures Atoi(s) == Some(Value(s))
  {
    assert IsDigit(s[0]);
  }

  // The numeral for a value: an optional sign and one digit or more.
  predicate IsNumeral(s: string, digits: string, v: int) {
    && digits != [] && AllDigits(digits)
    && ((s == digits && v == Value(digits)) || (s == "+" + digits && v == Value(digits))
        || (s == "-" + digits && v == -(Value(digits) as int)))
  }

  /** A string reads as a number exactly when it is a numeral for it and the number
      is an int64. */
  lemma AtoiMeaning(s: string, v: int)
    ensures Atoi(s) == Some(v) <==> (-0x8000_0000_0000_0000 <= v < 0x8000_0000_0000_0000 && exists d :: IsNumeral(s, d, v))
  {
    if Atoi(s) == Some(v) {
      if s[0] == '-' || s[0] == '+' {
        assert s == [s[0]] + s[1..];
        assert IsNumeral(s, s[1..], v);
      } else {
        assert IsNumeral(s, s, v);
      }
    }
    if d :| IsNumeral(s, d, v) {
      assert IsDigit(d[0]);
      assert s != d ==> s[1..] == d;
    }
  }
}
