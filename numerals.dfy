/**
 * Decimal text and integers as the Ruby runtime converts them:
 * `Integer#to_s` (used when a count is interpolated into a message) and
 * `String#to_i` (used on the "3fga" and "3fgm" fields of a game).
 */
module Numerals {

  predicate IsDigit(c: char) {
    '0' <= c <= '9'
  }

  /**
   * ASCII whitespace as Ruby reads it: the characters `String#to_i` skips
   * before the number, and the characters the regex class `\s` matches.
   */
  predicate IsSpace(c: char) {
    c == ' ' || c == '\t' || c == '\n' || c == '\U{B}' || c == '\U{C}' || c == '\r'
  }

  predicate AllDigits(s: string) {
    forall k :: 0 <= k < |s| ==> IsDigit(s[k])
  }

  function DigitChar(d: nat): (c: char)
    requires d < 10
    ensures IsDigit(c) && c as int - '0' as int == d
  {
    ('0' as int + d) as char
  }

  /** The decimal rendering of a natural number, as `Integer#to_s` gives it. */
  function NatToString(n: nat): (s: string)
    ensures |s| >= 1 && AllDigits(s)
    ensures |s| > 1 ==> s[0] != '0'
    decreases n
  {
    if n < 10 then [DigitChar(n)] else NatToString(n / 10) + [DigitChar(n % 10)]
  }

  /** The value of a string of decimal digits, most significant first. */
  function DigitsValue(d: string): nat
    requires AllDigits(d)
  {
    if d == [] then 0
    else DigitsValue(d[..|d| - 1]) * 10 + (d[|d| - 1] as int - '0' as int)
  }

  /** The longest prefix of `s` made of decimal digits. */
  function LeadingDigits(s: string): (d: string)
    ensures |d| <= |s| && d == s[..|d|]
    ensures AllDigits(d)
    ensures |d| < |s| ==> !IsDigit(s[|d|])
  {
    if s != [] && IsDigit(s[0]) then [s[0]] + LeadingDigits(s[1..]) else []
  }

  /** `s` without the whitespace `String#to_i` skips at its start. */
  function SkipLeadingSpace(s: string): string {
    if s != [] && IsSpace(s[0]) then SkipLeadingSpace(s[1..]) else s
  }

  /** What is skipped is whitespace, and what is left starts with something else. */
  lemma {:induction false} SkipLeadingSpaceIsSuffix(s: string)
    ensures var r := SkipLeadingSpace(s);
            && |r| <= |s| && r == s[|s| - |r|..]
            && (forall k :: 0 <= k < |s| - |r| ==> IsSpace(s[k]))
            && (r != [] ==> !IsSpace(r[0]))
    decreases |s|
  {
    if s != [] && IsSpace(s[0]) {
      SkipLeadingSpaceIsSuffix(s[1..]);
      var r := SkipLeadingSpace(s);
      assert s[1..][|s| - 1 - |r|..] == s[|s| - |r|..];
      forall k | 0 <= k < |s| - |r| ensures IsSpace(s[k]) {
        if k > 0 {
          assert s[k] == s[1..][k - 1];
        }
      }
    }
  }

  /**
   * `String#to_i` in base 10: leading whitespace, an optional sign, then the
   * longest run of decimal digits; text with no digits there converts to 0.
   */
  function ToI(s: string): (r: int)
    ensures var t := SkipLeadingSpace(s);
            var u := if t != [] && (t[0] == '-' || t[0] == '+') then t[1..] else t;
            (u == [] || !IsDigit(u[0])) ==> r == 0
    ensures r < 0 ==> SkipLeadingSpace(s)[0] == '-'
  {
    var t := SkipLeadingSpace(s);
    if t != [] && t[0] == '-' then 0 - DigitsValue(LeadingDigits(t[1..]))
    else if t != [] && t[0] == '+' then DigitsValue(LeadingDigits(t[1..]))
    else DigitsValue(LeadingDigits(t))
  }

  /**
   * A number field that is empty converts to 0. This is also how the model
   * reads a missing field: `nil.to_i` is 0 in Ruby.
   */
  lemma ToIOfEmpty()
    ensures ToI("") == 0
  {
  }

  lemma {:induction false} LeadingDigitsOfDigits(d: string, t: string)
    requires AllDigits(d)
    requires t == [] || !IsDigit(t[0])
    ensures LeadingDigits(d + t) == d
    decreases |d|
  {
    if d == [] {
      assert d + t == t;
    } else {
      assert (d + t)[1..] == d[1..] + t;
      LeadingDigitsOfDigits(d[1..], t);
    }
  }

  lemma {:induction false} NatToStringValue(n: nat)
    ensures DigitsValue(NatToString(n)) == n
    decreases n
  {
    var s := NatToString(n);
    if n >= 10 {
      NatToStringValue(n / 10);
      assert s[..|s| - 1] == NatToString(n / 10);
    }
  }

  /**
   * Reading back a rendered count: `to_i` of the decimal text of `n`,
   * followed by anything that does not start with a digit, gives `n`.
   */
  lemma ToIOfNatToString(n: nat, t: string)
    requires t == [] || !IsDigit(t[0])
    ensures ToI(NatToString(n) + t) == n
  {
    var s := NatToString(n);
    assert (s + t)[0] == s[0];
    assert SkipLeadingSpace(s + t) == s + t;
    LeadingDigitsOfDigits(s, t);
    NatToStringValue(n);
  }

  /** A negative number written with a minus sign reads back negated. */
  lemma ToIOfNegative(n: nat)
    ensures ToI("-" + NatToString(n)) == 0 - n
  {
    var s := NatToString(n);
    assert SkipLeadingSpace("-" + s) == "-" + s;
    assert ("-" + s)[1..] == s + [];
    LeadingDigitsOfDigits(s, []);
    NatToStringValue(n);
  }

  /** Distinct numbers render as distinct text. */
  lemma NatToStringInjective(m: nat, n: nat)
    requires NatToString(m) == NatToString(n)
    ensures m == n
  {
    NatToStringValue(m);
    NatToStringValue(n);
  }

  /** The numeric fields of the RSpec examples: "17", "14", "10" and "8". */
  lemma ToIExamples()
    ensures ToI("17") == 17 && ToI("14") == 14 && ToI("10") == 10 && ToI("8") == 8
  {
    assert NatToString(17) == "17" by { assert NatToString(1) == "1"; }
    assert NatToString(14) == "14" by { assert NatToString(1) == "1"; }
    assert NatToString(10) == "10" by { assert NatToString(1) == "1"; }
    assert NatToString(8) == "8";
    ToIOfNatToString(17, []);
    ToIOfNatToString(14, []);
    ToIOfNatToString(10, []);
    ToIOfNatToString(8, []);
    assert "17" + [] == "17" && "14" + [] == "14" && "10" + [] == "10" && "8" + [] == "8";
  }
}
