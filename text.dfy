/**
 * The decimal text Swift's string interpolation gives for the numbers
 * the program shows: an `Int` (`"\(n)"`) and a whole-valued `CGFloat`
 * (`"\(3.0)"` is `"3.0"`).
 */
module Text {

  predicate IsDigit(c: char) {
    '0' <= c <= '9'
  }

  predicate AllDigits(s: string) {
    forall i :: 0 <= i < |s| ==> IsDigit(s[i])
  }

  function DigitChar(d: nat): (c: char)
    requires d < 10
    ensures IsDigit(c) && c as int - '0' as int == d
  {
    (d + '0' as int) as char
  }

  /** The value a string of decimal digits denotes (most significant first). */
  function DigitsValue(s: string): nat
    requires AllDigits(s)
  {
    if s == [] then 0
    else DigitsValue(s[..|s| - 1]) * 10 + (s[|s| - 1] as int - '0' as int)
  }

  /** `"\(n)"` for a non-negative `Int`: decimal, no sign, no leading zero. */
  function NatToString(n: nat): (s: string)
    ensures |s| >= 1 && AllDigits(s)
    ensures s[0] == '0' ==> n == 0 && s == "0"
  {
    if n < 10 then [DigitChar(n)] else NatToString(n / 10) + [DigitChar(n % 10)]
  }

  /** Reading back the digits of `NatToString(n)` gives `n`. */
  lemma {:induction false} NatToStringRoundTrip(n: nat)
    ensures DigitsValue(NatToString(n)) == n
  {
    var s := NatToString(n);
    if n >= 10 {
      NatToStringRoundTrip(n / 10);
      assert s[..|s| - 1] == NatToString(n / 10);
    } else {
      assert s[..0] == [];
    }
  }

  /** Different numbers never print alike. */
  lemma NatToStringInjective(m: nat, n: nat)
    requires NatToString(m) == NatToString(n)
    ensures m == n
  {
    NatToStringRoundTrip(m);
    NatToStringRoundTrip(n);
  }

  /** `"\(CGFloat(n))"` for a whole number of feet: the digits, then ".0". */
  function WholeFloatText(n: nat): (s: string)
    ensures |s| >= 3 && s[|s| - 2..] == ".0"
    ensures AllDigits(s[..|s| - 2]) && DigitsValue(s[..|s| - 2]) == n
    ensures s[0] == '0' ==> n == 0 && s == "0.0"
  {
    NatToStringRoundTrip(n);
    var d := NatToString(n);
    assert (d + ".0")[..|d|] == d;
    d + ".0"
  }
}
