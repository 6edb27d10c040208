/** The string operations the service relies on: prefix tests, decimal formatting and `std::stoi`. */
module Strings {
  import opened Basics

  // ---------- prefixes ----------

  predicate OccursAt(s: string, pattern: string, at: nat) {
    at + |pattern| <= |s| && s[at..at + |pattern|] == pattern
  }

  /** `s.rfind(pattern, pos)`: the last occurrence that starts at or before `pos`. */
  function RFind(s: string, pattern: string, pos: nat): Option<nat> {
    if OccursAt(s, pattern, pos) then Some(pos)
    else if pos == 0 then None
    else RFind(s, pattern, pos - 1)
  }

  /** The service's prefix test, `value.rfind(prefix, 0) == 0`. */
  predicate StartsWith(value: string, prefix: string) {
    RFind(value, prefix, 0) == Some(0)
  }

  lemma StartsWithIsPrefix(value: string, prefix: string)
    ensures StartsWith(value, prefix) <==> prefix <= value
  {
    if prefix <= value {
      assert value[0..0 + |prefix|] == prefix;
    }
  }

  // ---------- decimal numbers ----------

  predicate IsDigit(c: char) {
    '0' <= c <= '9'
  }

  function DigitOf(n: nat): char
    requires n < 10
  {
    '0' + n as char
  }

  function DigitValue(c: char): nat
    requires IsDigit(c)
  {
    (c - '0') as nat
  }

  predicate AllDigits(s: string) {
    forall i | 0 <= i < |s| :: IsDigit(s[i])
  }

  function NatText(n: nat): (s: string)
    ensures |s| > 0 && AllDigits(s)
    ensures n > 0 ==> s[0] != '0'
  {
    if n < 10 then [DigitOf(n)] else NatText(n / 10) + [DigitOf(n % 10)]
  }

  function NatValue(s: string): nat
    requires AllDigits(s)
  {
    if s == "" then 0 else 10 * NatValue(s[..|s| - 1]) + DigitValue(s[|s| - 1])
  }

  lemma {:induction false} NatRoundTrip(n: nat)
    ensures NatValue(NatText(n)) == n
  {
    if n >= 10 {
      NatRoundTrip(n / 10);
      assert NatText(n)[..|NatText(n)| - 1] == NatText(n / 10);
    } else {
      assert NatText(n)[..0] == "";
    }
  }

  /** `std::to_string` on an integer, and Python's `str` on one. */
  function IntText(n: int): string {
    if n < 0 then "-" + NatText(-n) else NatText(n)
  }

  lemma IntTextInjective(a: int, b: int)
    requires IntText(a) == IntText(b)
    ensures a == b
  {
    NatRoundTrip(if a < 0 then -a else a);
    NatRoundTrip(if b < 0 then -b else b);
    assert IntText(a)[0] == IntText(b)[0];
    if a < 0 {
      assert IntText(a)[1..] == NatText(-a);
    }
    if b < 0 {
      assert IntText(b)[1..] == NatText(-b);
    }
  }

  /** What the text looks like: the digits of a decimal number, most significant first, after '-' if negative. */
  lemma TextIsDecimal(n: nat, digit: nat)
    requires digit < 10
    ensures IntText(digit) == "0123456789"[digit..digit + 1]
    ensures n > 0 ==> IntText(10 * n + digit) == IntText(n) + "0123456789"[digit..digit + 1]
    ensures n > 0 ==> IntText(0 - n) == "-" + IntText(n)
  {
    assert "0123456789"[digit] == DigitOf(digit);
    if n > 0 {
      assert (10 * n + digit) / 10 == n && (10 * n + digit) % 10 == digit;
    }
  }

  // ---------- std::stoi ----------

  predicate IsSpace(c: char) {
    c == ' ' || '\t' <= c <= '\r'
  }

  function SkipSpaces(s: string): string {
    if s != "" && IsSpace(s[0]) then SkipSpaces(s[1..]) else s
  }

  /** The longest prefix made of digits. */
  function LeadingDigits(s: string): (digits: string)
    ensures AllDigits(digits) && digits <= s
    ensures |digits| < |s| ==> !IsDigit(s[|digits|])
  {
    if s != "" && IsDigit(s[0]) then [s[0]] + LeadingDigits(s[1..]) else ""
  }

  const INT_MIN := -0x8000_0000
  const INT_MAX := 0x7fff_ffff

  /** The optional sign, true for '-', and the digits that follow it. */
  function SignedDigits(text: string): (parts: (bool, string))
    ensures AllDigits(parts.1)
  {
    if text != "" && (text[0] == '-' || text[0] == '+') then (text[0] == '-', LeadingDigits(text[1..]))
    else (false, LeadingDigits(text))
  }

  function InRange(value: int): Option<int> {
    if INT_MIN <= value <= INT_MAX then Some(value) else None
  }

  /** `std::stoi`: no digits raise `invalid_argument`, a value outside `int` raises `out_of_range`. */
  function Stoi(s: string): Option<int> {
    var (negative, digits) := SignedDigits(SkipSpaces(s));
    if digits == "" then None
    else InRange(if negative then 0 - NatValue(digits) else NatValue(digits))
  }

  lemma {:induction false} LeadingDigitsOfNumber(s: string, rest: string)
    requires AllDigits(s) && (rest == "" || !IsDigit(rest[0]))
    ensures LeadingDigits(s + rest) == s
  {
    if s == "" {
      assert s + rest == rest;
    } else {
      assert (s + rest)[1..] == s[1..] + rest;
      LeadingDigitsOfNumber(s[1..], rest);
    }
  }

  lemma DigitsAreNotSpaceOrSign(c: char)
    requires IsDigit(c)
    ensures !IsSpace(c) && c != '-' && c != '+'
  {
  }

  lemma SignAndDigitsAreFound(negative: bool, digits: string)
    requires digits != "" && AllDigits(digits)
    ensures var text := if negative then "-" + digits else digits;
            SkipSpaces(text) == text && SignedDigits(text) == (negative, digits)
  {
    LeadingDigitsOfNumber(digits, "");
    assert digits + "" == digits;
    DigitsAreNotSpaceOrSign(digits[0]);
    assert ("-" + digits)[1..] == digits;
  }

  /** Reading back what `std::to_string` wrote gives the number, for every value of type `int`. */
  lemma StoiReadsIntText(n: int)
    ensures Stoi(IntText(n)) == if INT_MIN <= n <= INT_MAX then Some(n) else None
  {
    var magnitude := if n < 0 then -n else n;
    NatRoundTrip(magnitude);
    SignAndDigitsAreFound(n < 0, NatText(magnitude));
  }

  predicate AllSpaces(s: string) {
    forall i | 0 <= i < |s| :: IsSpace(s[i])
  }

  lemma {:induction false} SpacesAreSkipped(spaces: string, text: string)
    requires AllSpaces(spaces) && (text == "" || !IsSpace(text[0]))
    ensures SkipSpaces(spaces + text) == text
  {
    if spaces == "" {
      assert spaces + text == text;
    } else {
      assert (spaces + text)[1..] == spaces[1..] + text;
      SpacesAreSkipped(spaces[1..], text);
    }
  }

  /** A sign, perhaps empty, and what it does to a number. */
  predicate IsSign(s: string) {
    s == "" || s == "+" || s == "-"
  }

  /** `rest` does not go on with what came before: with a number, a sign or white space if nothing was read yet. */
  predicate Ends(sign: string, digits: string, rest: string) {
    rest == ""
    || (!IsDigit(rest[0]) && (sign == "" && digits == "" ==> !IsSpace(rest[0]) && rest[0] != '+' && rest[0] != '-'))
  }

  lemma SignIsSplitOff(sign: string, digits: string, rest: string)
    requires IsSign(sign) && AllDigits(digits) && Ends(sign, digits, rest)
    ensures var text := sign + (digits + rest);
            && (text == "" || !IsSpace(text[0]))
            && SignedDigits(text) == (sign == "-", digits)
  {
    var number := digits + rest;
    LeadingDigitsOfNumber(digits, rest);
    if sign == "" {
      assert sign + number == number;
      if digits != "" {
        DigitsAreNotSpaceOrSign(digits[0]);
      }
    } else {
      assert (sign + number)[1..] == number;
    }
  }

  function Signed(sign: string, value: nat): int {
    if sign == "-" then 0 - value else value
  }

  lemma NumberIsRead(s: string, text: string, sign: string, digits: string, value: int)
    requires SkipSpaces(s) == text && AllDigits(digits) && SignedDigits(text) == (sign == "-", digits)
    requires value == Signed(sign, NatValue(digits))
    ensures Stoi(s) == if digits != "" && -0x8000_0000 <= value <= 0x7fff_ffff then Some(value) else None
  {
  }

  /**
   What `std::stoi` reads from any argument. Every text is some white space, perhaps a sign, perhaps digits, and a
   rest: without digits nothing is read, and otherwise the signed number if it fits an `int`, whatever the rest is.
   */
  lemma StoiReadsPrefix(spaces: string, text: string, sign: string, digits: string, rest: string, value: int)
    requires AllSpaces(spaces) && IsSign(sign) && AllDigits(digits) && Ends(sign, digits, rest)
    requires text == sign + (digits + rest) && value == Signed(sign, NatValue(digits))
    ensures Stoi(spaces + text) == if digits != "" && -0x8000_0000 <= value <= 0x7fff_ffff then Some(value) else None
  {
    SignIsSplitOff(sign, digits, rest);
    SpacesAreSkipped(spaces, text);
    NumberIsRead(spaces + text, text, sign, digits, value);
  }
}
