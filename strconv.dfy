/**
 * Decimal formatting and parsing of identifiers, as the server uses
 * `fmt.Sprintf("%d", id)`, `strconv.Atoi` and `strconv.ParseInt(s, 10, 64)`,
 * plus the prefix helpers of package `strings`.
 */
module Strconv {
  import opened Wrappers

  predicate IsDigit(c: char) { '0' <= c <= '9' }

  function DigitValue(c: char): (d: nat)
    requires IsDigit(c)
    ensures d < 10
  {
    (c as int) - ('0' as int)
  }

  function DigitChar(d: nat): (c: char)
    requires d < 10
    ensures IsDigit(c) && DigitValue(c) == d
  {
    (('0' as int) + d) as char
  }

  /** The decimal form of `n`, as `%d` prints it: no sign, no leading zero. */
  function Itoa(n: nat): (s: string)
    ensures |s| >= 1
    ensures forall i :: 0 <= i < |s| ==> IsDigit(s[i])
    ensures |s| > 1 ==> s[0] != '0'
    decreases n
  {
    if n < 10 then [DigitChar(n)] else Itoa(n / 10) + [DigitChar(n % 10)]
  }

  /**
   * `%d` (and `strconv.FormatInt(n, 10)`) of any integer: its decimal text parses
   * back to it, and it starts with a minus sign exactly when it is negative.
   */
  function FormatInt(n: int): (s: string)
    ensures Atoi(s) == Some(n)
    ensures |s| >= 1 && (s[0] == '-' <==> n < 0)
  {
    if n < 0 then
      var digits := Itoa(-n);
      DigitsValueOfItoa(-n);
      assert ("-" + digits)[1..] == digits;
      "-" + digits
    else
      AtoiOfItoa(n);
      Itoa(n)
  }

  /** The value of a non-empty string of decimal digits. */
  function DigitsValue(s: string): nat
    requires forall i :: 0 <= i < |s| ==> IsDigit(s[i])
  {
    if s == [] then 0 else 10 * DigitsValue(s[..|s| - 1]) + DigitValue(s[|s| - 1])
  }

  predicate AllDigits(s: string) { forall i :: 0 <= i < |s| ==> IsDigit(s[i]) }

  /**
   * `strconv.Atoi` (and `ParseInt(s, 10, 64)`): an optional sign followed by at
   * least one decimal digit and nothing else; anything else is a syntax error.
   */
  function Atoi(s: string): (r: Option<int>)
    ensures r.Some? <==>
      (|s| > 0 && AllDigits(s)) ||
      (|s| > 1 && (s[0] == '+' || s[0] == '-') && AllDigits(s[1..]))
  {
    if |s| > 0 && (s[0] == '+' || s[0] == '-') then
      var digits := s[1..];
      if |digits| > 0 && AllDigits(digits) then
        var magnitude: int := DigitsValue(digits);
        Some(if s[0] == '-' then -magnitude else magnitude)
      else None
    else if |s| > 0 && AllDigits(s) then Some(DigitsValue(s))
    else None
  }

  lemma {:induction false} DigitsValueOfItoa(n: nat)
    ensures DigitsValue(Itoa(n)) == n
    decreases n
  {
    if n >= 10 {
      var s := Itoa(n);
      assert s[..|s| - 1] == Itoa(n / 10);
      DigitsValueOfItoa(n / 10);
    }
  }

  /** Parsing the decimal form of an identifier gives the identifier back. */
  lemma AtoiOfItoa(n: nat)
    ensures Atoi(Itoa(n)) == Some(n)
  {
    DigitsValueOfItoa(n);
  }

  /** Distinct identifiers have distinct decimal forms, so registry keys never collide. */
  lemma ItoaInjective(a: nat, b: nat)
    requires Itoa(a) == Itoa(b)
    ensures a == b
  {
    AtoiOfItoa(a);
    AtoiOfItoa(b);
  }

  /** `strings.HasPrefix`. */
  predicate HasPrefix(s: string, prefix: string) { prefix <= s }

  /** `strings.TrimPrefix`: drops `prefix` when `s` starts with it. */
  function TrimPrefix(s: string, prefix: string): (r: string)
    ensures HasPrefix(s, prefix) ==> prefix + r == s
    ensures !HasPrefix(s, prefix) ==> r == s
  {
    if HasPrefix(s, prefix) then s[|prefix|..] else s
  }
}
