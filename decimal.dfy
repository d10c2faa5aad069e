/**
 * Decimal text and Kotlin `Int`: `String.toIntOrNull()` (radix 10) and
 * `Int.toString()`.
 */
module Decimal {
  import opened Wrappers
  import opened Int32Arith

  predicate IsDigit(c: char) {
    '0' <= c <= '9'
  }

  predicate IsDigits(s: string) {
    forall i :: 0 <= i < |s| ==> IsDigit(s[i])
  }

  function DigitValue(c: char): (d: nat)
    requires IsDigit(c)
    ensures d < 10
  {
    c as int - '0' as int
  }

  function DigitChar(d: nat): (c: char)
    requires d < 10
    ensures IsDigit(c) && DigitValue(c) == d
  {
    ('0' as int + d) as char
  }

  /** The number a string of decimal digits denotes; leading zeros are allowed. */
  function Value(s: string): nat
    requires IsDigits(s)
  {
    if s == [] then 0 else 10 * Value(s[..|s| - 1]) + DigitValue(s[|s| - 1])
  }

  /** Decimal digits of `n` without leading zeros ("0" for zero). */
  function NatToString(n: nat): (s: string)
    ensures |s| >= 1 && IsDigits(s) && Value(s) == n
    ensures s[0] != '0' || s == "0"
  {
    if n < 10 then
      [DigitChar(n)]
    else
      var init := NatToString(n / 10);
      var s := init + [DigitChar(n % 10)];
      assert s[..|s| - 1] == init;
      s
  }

  /** Kotlin `Int.toString()`: a minus sign, then the digits of the magnitude. */
  function IntToString(n: int): (s: string)
    ensures |s| >= 1
    ensures n < 0 ==> s[0] == '-' && IsDigits(s[1..]) && Value(s[1..]) == -n
    ensures n >= 0 ==> IsDigits(s) && Value(s) == n
    ensures n >= 0 ==> s[0] != '0' || s == "0"
    ensures n < 0 ==> |s| >= 2 && s[1] != '0'
  {
    if n < 0 then
      var s := "-" + NatToString(-n);
      assert s[1..] == NatToString(-n);
      s
    else NatToString(n)
  }

  /**
   * Kotlin `String.toIntOrNull()`: an optional leading '+' or '-', then one
   * or more decimal digits, whose value must fit in an `Int`; anything else
   * (the empty string, a lone sign, any other character, an overflow)
   * yields null.
   */
  function ParseInt(s: string): (r: Option<int>)
    ensures r.Some? ==> IsInt32(r.value) && s != ""
  {
    if s == [] then None
    else
      var digits := if s[0] == '-' || s[0] == '+' then s[1..] else s;
      if digits == [] || !IsDigits(digits) then None
      else
        var v: int := if s[0] == '-' then -(Value(digits) as int) else Value(digits);
        if IsInt32(v) then Some(v) else None
  }

  /** Every `Int` survives printing and re-parsing. */
  lemma ParseIntToString(n: int)
    requires IsInt32(n)
    ensures ParseInt(IntToString(n)) == Some(n)
  {
    var s := IntToString(n);
    if n < 0 {
      assert s[1..] == NatToString(-n);
    } else {
      assert IsDigit(s[0]);
    }
  }

  /** Zeros in front of a numeral do not change its value. */
  lemma {:induction false} ValueIgnoresLeadingZeros(zeros: string, s: string)
    requires forall i :: 0 <= i < |zeros| ==> zeros[i] == '0'
    requires IsDigits(s)
    ensures IsDigits(zeros + s) && Value(zeros + s) == Value(s)
  {
    if s == [] {
      assert zeros + s == zeros;
      if zeros != [] {
        assert zeros[..|zeros| - 1] + [] == zeros[..|zeros| - 1];
        ValueIgnoresLeadingZeros(zeros[..|zeros| - 1], []);
      }
    } else {
      var init := s[..|s| - 1];
      assert (zeros + s)[..|zeros + s| - 1] == zeros + init;
      ValueIgnoresLeadingZeros(zeros, init);
    }
  }

  /** A numeral that does not start with '0' denotes a positive number. */
  lemma {:induction false} ValueOfNonZeroLead(s: string)
    requires IsDigits(s) && s != [] && s[0] != '0'
    ensures Value(s) >= 1
  {
    if |s| > 1 {
      ValueOfNonZeroLead(s[..|s| - 1]);
    }
  }

  /** A numeral without leading zeros is the one `NatToString` prints. */
  lemma {:induction false} CanonicalNumeral(s: string)
    requires IsDigits(s) && s != [] && s[0] != '0'
    ensures NatToString(Value(s)) == s
  {
    var init := s[..|s| - 1];
    if |s| > 1 {
      ValueOfNonZeroLead(init);
      CanonicalNumeral(init);
      assert s == init + [s[|s| - 1]];
    }
  }

  /** Number of '0' characters at the front of `s`. */
  function LeadingZeros(s: string): (k: nat)
    ensures k <= |s|
    ensures forall i :: 0 <= i < k ==> s[i] == '0'
    ensures k < |s| ==> s[k] != '0'
  {
    if s == [] || s[0] != '0' then 0 else 1 + LeadingZeros(s[1..])
  }

  /** `g` without one leading '+', if it has one. */
  function DropPlus(g: string): string {
    if g != [] && g[0] == '+' then g[1..] else g
  }

  /** `body` is `digits` preceded by any number of '0' characters. */
  predicate ZeroPadded(body: string, digits: string) {
    |body| >= |digits| && body[|body| - |digits|..] == digits &&
    forall i :: 0 <= i < |body| - |digits| ==> body[i] == '0'
  }

  /**
   * `g` is the numeral of `n`, preceded by at most one '+' and by any number
   * of '0' characters ("+007" for 7).
   */
  predicate IsPaddedNumeral(g: string, n: nat) {
    ZeroPadded(DropPlus(g), NatToString(n))
  }

  /**
   * The texts `toIntOrNull` reads as the `Int` `n`: the numeral of `n`'s
   * magnitude after any number of '0' characters, preceded by an optional
   * '+' when `n >= 0` and by a '-' when `n <= 0` (required when `n < 0`,
   * optional for zero: "-00" is 0).
   */
  predicate IsNumeralText(g: string, n: int) {
    || (n >= 0 && ZeroPadded(DropPlus(g), NatToString(n)))
    || (n <= 0 && g != [] && g[0] == '-' && ZeroPadded(g[1..], NatToString(-n)))
  }

  /** A zero-padded numeral is a non-empty digit string with the numeral's value. */
  lemma PaddedBodyValue(body: string, m: nat)
    requires ZeroPadded(body, NatToString(m))
    ensures body != [] && IsDigits(body) && Value(body) == m
  {
    var digits := NatToString(m);
    var zeros := body[..|body| - |digits|];
    assert body == zeros + digits;
    assert forall i :: 0 <= i < |zeros| ==> zeros[i] == body[i];
    ValueIgnoresLeadingZeros(zeros, digits);
  }

  /** Every non-empty digit string is the zero-padded numeral of its value. */
  lemma BodyValuePadded(body: string)
    requires body != [] && IsDigits(body)
    ensures ZeroPadded(body, NatToString(Value(body)))
  {
    var k := LeadingZeros(body);
    var zeros, rest := body[..k], body[k..];
    assert body == zeros + rest;
    ValueIgnoresLeadingZeros(zeros, rest);
    if k == |body| {
      assert NatToString(0) == "0";
      assert body[|body| - 1..] == [body[|body| - 1]];
    } else {
      CanonicalNumeral(rest);
    }
  }

  /** The texts that `toIntOrNull` reads as a given `Int` are exactly its numeral texts. */
  lemma ParseIntNumeral(g: string, n: int)
    requires IsInt32(n)
    ensures ParseInt(g) == Some(n) <==> IsNumeralText(g, n)
  {
    if n >= 0 && ZeroPadded(DropPlus(g), NatToString(n)) {
      PaddedBodyValue(DropPlus(g), n);
      assert IsDigit(DropPlus(g)[0]);
    } else if n <= 0 && g != [] && g[0] == '-' && ZeroPadded(g[1..], NatToString(-n)) {
      PaddedBodyValue(g[1..], -n);
    }
    if ParseInt(g) == Some(n) {
      BodyValuePadded(if g[0] == '-' || g[0] == '+' then g[1..] else g);
    }
  }

  /** The texts that `toIntOrNull` reads as a given positive `Int` are exactly its padded numerals. */
  lemma ParseIntPositive(g: string, n: int)
    requires 1 <= n <= MAX
    ensures ParseInt(g) == Some(n) <==> IsPaddedNumeral(g, n)
  {
    ParseIntNumeral(g, n);
  }

  /** A numeral above `Int.MAX_VALUE`, with or without '+', reads as null. */
  lemma OverflowGivesNull(d: string)
    requires d != [] && IsDigits(d) && Value(d) > MAX
    ensures ParseInt(d) == None && ParseInt("+" + d) == None
  {
    assert IsDigit(d[0]);
    assert ("+" + d)[1..] == d;
  }

  /** A negative numeral below `Int.MIN_VALUE` reads as null. */
  lemma NegativeOverflowGivesNull(d: string)
    requires d != [] && IsDigits(d) && Value(d) > -MIN
    ensures ParseInt("-" + d) == None
  {
    assert ("-" + d)[1..] == d;
  }
}
