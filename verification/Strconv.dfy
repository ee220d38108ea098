/** The parts of Go's `strconv` package that urunc stores and restores its settings with. */
module Strconv {
  import opened GoStrings

  type uint64 = x: int | 0 <= x < 0x1_0000_0000_0000_0000

  const MAX_INT := 0x7FFF_FFFF_FFFF_FFFF

  function FormatBool(b: bool): string {
    if b then "true" else "false"
  }

  function ParseBool(s: string): Option<bool> {
    if s in {"1", "t", "T", "TRUE", "true", "True"} then Some(true)
    else if s in {"0", "f", "F", "FALSE", "false", "False"} then Some(false)
    else None
  }

  const DIGITS := "0123456789"

  /** `strconv.FormatUint(n, 10)` */
  function FormatUint(n: nat): (s: string)
    ensures |s| > 0
    ensures forall i :: 0 <= i < |s| ==> '0' <= s[i] <= '9'
    ensures n > 0 ==> s[0] != '0'
  {
    if n < 10 then [DIGITS[n]] else FormatUint(n / 10) + [DIGITS[n % 10]]
  }

  predicate IsDigit(c: char) {
    '0' <= c <= '9'
  }

  /** The number that decimal digits stand for. */
  function ParseDigits(s: string): Option<nat> {
    if s == "" then Some(0)
    else
      var last := s[|s| - 1];
      match ParseDigits(s[..|s| - 1])
      case None => None
      case Some(n) => if IsDigit(last) then Some(10 * n + (last as int - '0' as int)) else None
  }

  /** `strconv.Atoi`: an optional sign, at least one digit, and a value that an int has. */
  function Atoi(s: string): Option<int> {
    var negative := s != "" && s[0] == '-';
    var digits := if s != "" && (s[0] == '-' || s[0] == '+') then s[1..] else s;
    if digits == "" || ParseDigits(digits).None? then None
    else
      var n: int := ParseDigits(digits).value;
      var value: int := if negative then -n else n;
      if -MAX_INT - 1 <= value <= MAX_INT then Some(value) else None
  }

  lemma FormatLast(n: nat)
    ensures n < 10 ==> FormatUint(n) == [DIGITS[n]]
    ensures n >= 10 ==> FormatUint(n) == FormatUint(n / 10) + [DIGITS[n % 10]]
  {
  }

  lemma ParseSnoc(s: string, c: char)
    requires ParseDigits(s).Some? && IsDigit(c)
    ensures ParseDigits(s + [c]) == Some(10 * ParseDigits(s).value + (c as int - '0' as int))
  {
    assert (s + [c])[..|s|] == s;
  }

  lemma DigitsAreDigits(d: nat)
    requires d < 10
    ensures IsDigit(DIGITS[d]) && DIGITS[d] as int - '0' as int == d
  {
  }

  lemma {:induction false} ParseDigitsFormat(n: nat)
    ensures ParseDigits(FormatUint(n)) == Some(n)
  {
    FormatLast(n);
    DigitsAreDigits(n % 10);
    hide FormatUint;
    if n < 10 {
      ParseSnoc("", DIGITS[n]);
      assert "" + [DIGITS[n]] == [DIGITS[n]];
    } else {
      hide ParseDigits;
      ParseDigitsFormat(n / 10);
      ParseSnoc(FormatUint(n / 10), DIGITS[n % 10]);
    }
  }

  /** A number comes back from its decimal form exactly if it fits an int. */
  lemma AtoiFormat(n: nat)
    ensures Atoi(FormatUint(n)) == if n <= MAX_INT then Some(n) else None
  {
    ParseDigitsFormat(n);
  }

  lemma ParseBoolFormat(b: bool)
    ensures ParseBool(FormatBool(b)) == Some(b)
  {
  }

  lemma FormatSnoc(n: nat, d: nat)
    requires n > 0 && d < 10
    ensures FormatUint(10 * n + d) == FormatUint(n) + [DIGITS[d]]
    ensures FormatUint(d) == [DIGITS[d]]
  {
    assert (10 * n + d) / 10 == n && (10 * n + d) % 10 == d;
  }

  lemma DigitOf(c: char)
    requires IsDigit(c)
    ensures DIGITS[c as int - '0' as int] == c
  {
  }

  lemma ParseDigitsLast(s: string)
    requires s != "" && ParseDigits(s).Some?
    ensures ParseDigits(s[..|s| - 1]).Some? && IsDigit(s[|s| - 1])
    ensures ParseDigits(s).value == 10 * ParseDigits(s[..|s| - 1]).value + (s[|s| - 1] as int - '0' as int)
    ensures |s| == 1 ==> ParseDigits(s[..|s| - 1]).value == 0
  {
  }

  /** Digits without a leading zero are the decimal form of the number they stand for. */
  lemma {:induction false} FormatParseDigits(s: string)
    requires s != "" && ParseDigits(s).Some? && (|s| > 1 ==> s[0] != '0')
    ensures FormatUint(ParseDigits(s).value) == s
    ensures s[0] != '0' ==> ParseDigits(s).value > 0
  {
    hide ParseDigits, FormatUint;
    var n := |s| - 1;
    var init, last := s[..n], s[n];
    var d := last as int - '0' as int;
    ParseDigitsLast(s);
    DigitOf(last);
    if n > 0 {
      assert init[0] == s[0];
      FormatParseDigits(init);
      FormatSnoc(ParseDigits(init).value, d);
      assert init + [last] == s;
    } else {
      FormatSnoc(1, d);
      assert s == [last];
    }
  }
}
