/**
 * Decimal rendering and parsing of integers, as `fmt.Sprint` renders a Go `int`
 * and `strconv.Atoi` parses one. Integers are unbounded here: the 64-bit range
 * of Go's `int` and Atoi's out-of-range clamping are not modelled.
 */
module Decimal {
  import opened Wrappers

  predicate IsDigit(c: char) {
    '0' <= c <= '9'
  }

  predicate AllDigits(s: string) {
    forall i :: 0 <= i < |s| ==> IsDigit(s[i])
  }

  function DigitValue(c: char): (d: nat)
    requires IsDigit(c)
    ensures d < 10
  {
    c as int - '0' as int
  }

  function DigitChar(d: nat): (c: char)
    requires d < 10
    ensures IsDigit(c) && DigitValue(c) == d
  {
    ('0' as int + d) as char
  }

  /** The value of a run of decimal digits, most significant digit first. */
  function DigitsValue(s: string): nat
    requires AllDigits(s)
  {
    if s == [] then 0 else DigitsValue(s[..|s| - 1]) * 10 + DigitValue(s[|s| - 1])
  }

  /** The decimal digits of n: never empty, and with no leading zero unless n is 0. */
  function NatDigits(n: nat): (s: string)
    ensures |s| > 0 && AllDigits(s)
    ensures s[0] == '0' ==> s == "0"
    ensures DigitsValue(s) == n
  {
    if n < 10 then
      [DigitChar(n)]
    else
      var s := NatDigits(n / 10) + [DigitChar(n % 10)];
      assert s[..|s| - 1] == NatDigits(n / 10);
      s
  }

  /**
   * The shape of what `fmt.Sprint` produces for an int: "0", or a digit 1-9 followed
   * by digits, optionally preceded by a minus sign.
   */
  predicate IsCanonical(s: string) {
    || s == "0"
    || (|s| > 0 && '1' <= s[0] <= '9' && AllDigits(s[1..]))
    || (|s| > 1 && s[0] == '-' && '1' <= s[1] <= '9' && AllDigits(s[2..]))
  }

  /**
   * What `strconv.Atoi` accepts: an optional '+' or '-', then one or more decimal
   * digits, and nothing else (no blanks, no underscores, no empty string).
   */
  predicate IsIntegerSyntax(s: string) {
    && |s| > 0
    && (IsDigit(s[0]) || ((s[0] == '+' || s[0] == '-') && |s| > 1))
    && forall i :: 1 <= i < |s| ==> IsDigit(s[i])
  }

  /** `fmt.Sprint(n)` for an int n. */
  function Sprint(n: int): (s: string)
    ensures IsCanonical(s) && IsIntegerSyntax(s)
  {
    if n < 0 then
      var d := NatDigits(-n);
      assert ("-" + d)[1..] == d && ("-" + d)[2..] == d[1..];
      "-" + d
    else
      NatDigits(n)
  }

  /** `strconv.Atoi(s)`: the parsed value, or None where Go returns a syntax error. */
  function Atoi(s: string): (r: Option<int>)
    ensures r.Some? <==> IsIntegerSyntax(s)
  {
    if |s| == 0 then None
    else
      var digits := if s[0] == '+' || s[0] == '-' then s[1..] else s;
      if |digits| == 0 || !AllDigits(digits) then None
      else
        var magnitude: int := DigitsValue(digits);
        Some(if s[0] == '-' then -magnitude else magnitude)
  }

  /** `n, _ := strconv.Atoi(s)`: the program drops the error, so a failed parse reads as 0. */
  function AtoiOrZero(s: string): (n: int)
    ensures !IsIntegerSyntax(s) ==> n == 0
  {
    match Atoi(s)
    case Some(v) => v
    case None => 0
  }

  /** Parsing what Sprint renders gives the integer back. */
  lemma AtoiSprint(n: int)
    ensures Atoi(Sprint(n)) == Some(n)
    ensures AtoiOrZero(Sprint(n)) == n
  {
  }

  /** Digits without a leading zero are exactly what NatDigits renders for their value. */
  lemma {:induction false} NatDigitsOfValue(s: string)
    requires |s| > 0 && AllDigits(s) && (s[0] == '0' ==> s == "0")
    ensures NatDigits(DigitsValue(s)) == s
  {
    if |s| > 1 {
      var init := s[..|s| - 1];
      assert init[0] == s[0];
      PositiveValue(init);
      NatDigitsOfValue(init);
      assert s == init + [s[|s| - 1]];
    }
  }

  /** A run of digits that starts with a non-zero digit has a positive value. */
  lemma {:induction false} PositiveValue(s: string)
    requires |s| > 0 && AllDigits(s) && s[0] != '0'
    ensures DigitsValue(s) > 0
  {
    if |s| > 1 {
      var init := s[..|s| - 1];
      assert init[0] == s[0];
      PositiveValue(init);
    }
  }

  /** Rendering what Atoi parsed reproduces any text already in Sprint's shape. */
  lemma SprintAtoi(s: string)
    requires IsCanonical(s)
    ensures IsIntegerSyntax(s) && Sprint(AtoiOrZero(s)) == s
  {
    if s[0] == '-' {
      var d := s[1..];
      assert d[0] == s[1] && d[1..] == s[2..];
      assert AllDigits(d);
      NatDigitsOfValue(d);
      PositiveValue(d);
      var v: int := DigitsValue(d);
      assert Atoi(s) == Some(-v);
      assert Sprint(-v) == "-" + NatDigits(v);
      assert s == "-" + d;
    } else {
      assert AllDigits(s);
      NatDigitsOfValue(s);
      assert Atoi(s) == Some(DigitsValue(s));
    }
  }

  /** A leading zero does not change the value of a run of digits. */
  lemma {:induction false} LeadingZeroValue(d: string)
    requires AllDigits(d)
    ensures AllDigits("0" + d) && DigitsValue("0" + d) == DigitsValue(d)
  {
    if d != [] {
      var init := d[..|d| - 1];
      LeadingZeroValue(init);
      assert ("0" + d)[..|"0" + d| - 1] == "0" + init;
    }
  }

  /** Unsigned digits parse to their value. */
  lemma AtoiDigits(d: string)
    requires |d| > 0 && AllDigits(d)
    ensures Atoi(d) == Some(DigitsValue(d))
  {
    assert d[0] != '+' && d[0] != '-';
  }

  /** A sign in front of digits: '+' changes nothing, '-' negates. */
  lemma AtoiSigned(d: string)
    requires |d| > 0 && AllDigits(d)
    ensures Atoi("+" + d) == Some(DigitsValue(d))
    ensures Atoi("-" + d) == Some(-(DigitsValue(d) as int))
  {
    var plus, minus := "+" + d, "-" + d;
    assert plus[0] == '+' && plus[1..] == d;
    assert minus[0] == '-' && minus[1..] == d;
  }

  /**
   * The value Atoi gives every text it accepts: the value of its digits, negated after
   * '-'; a '+' sign and leading zeros change nothing, and "-0" is 0.
   */
  lemma AtoiValue(d: string)
    requires |d| > 0 && AllDigits(d)
    ensures Atoi(d) == Some(DigitsValue(d))
    ensures Atoi("+" + d) == Atoi(d)
    ensures Atoi("-" + d) == Some(-(DigitsValue(d) as int))
    ensures Atoi("0" + d) == Atoi(d)
  {
    AtoiDigits(d);
    AtoiSigned(d);
    LeadingZeroValue(d);
    AtoiDigits("0" + d);
  }

  /** Sprint is injective: distinct integers render as distinct text. */
  lemma SprintInjective(m: int, n: int)
    requires Sprint(m) == Sprint(n)
    ensures m == n
  {
    AtoiSprint(m);
    AtoiSprint(n);
  }
}
