/**
 * Decimal rendering of non-negative integers as the source's string
 * formatting produces it: `str(n)`, `'0' * k` and the zero padding built
 * from them (also used for `%02d` and the `strftime` fields).
 */
module Decimal {

  predicate IsDigit(c: char) {
    '0' <= c <= '9'
  }

  predicate AllDigits(s: string) {
    forall i | 0 <= i < |s| :: IsDigit(s[i])
  }

  function DigitChar(d: nat): (c: char)
    requires d < 10
    ensures IsDigit(c)
  {
    ('0' as int + d) as char
  }

  function DigitValue(c: char): (d: nat)
    requires IsDigit(c)
    ensures d < 10
  {
    c as int - '0' as int
  }

  /** The number a string of decimal digits denotes, most significant digit first. */
  function Value(s: string): nat
    requires AllDigits(s)
  {
    if s == [] then 0 else Value(s[..|s| - 1]) * 10 + DigitValue(s[|s| - 1])
  }

  function Pow10(k: nat): (p: nat)
    ensures p >= 1
  {
    if k == 0 then 1 else 10 * Pow10(k - 1)
  }

  /** Python's `str(n)` for a non-negative `int`: digits only, no leading zero. */
  function Show(n: nat): (s: string)
    ensures |s| >= 1 && AllDigits(s)
    ensures s[0] == '0' <==> n == 0
  {
    if n < 10 then [DigitChar(n)] else Show(n / 10) + [DigitChar(n % 10)]
  }

  /** Python's `'0' * k`: `k` zeros, and the empty string when `k` is zero or negative. */
  function ZeroRun(k: int): (s: string)
    ensures |s| == if k > 0 then k else 0
    ensures forall i | 0 <= i < |s| :: s[i] == '0'
    decreases k
  {
    if k <= 0 then "" else ZeroRun(k - 1) + "0"
  }

  /**
   * `'0' * (width - len(str(n))) + str(n)`: the decimal string of `n`
   * widened with leading zeros to `width` characters, never truncated.
   */
  function PadLeft(n: nat, width: int): string {
    ZeroRun(width - |Show(n)|) + Show(n)
  }

  /** Padding yields digits only, `max(width, len(str(n)))` of them, still denoting `n`. */
  lemma PadLeftDigits(n: nat, width: int)
    ensures var s := PadLeft(n, width);
      && AllDigits(s)
      && |s| == (if |Show(n)| < width then width else |Show(n)|)
      && Value(s) == n
  {
    var digits := Show(n);
    ShowRoundTrip(n);
    LeadingZeros(ZeroRun(width - |digits|), digits);
  }

  lemma {:induction false} ShowRoundTrip(n: nat)
    ensures Value(Show(n)) == n
  {
    if n >= 10 {
      ShowRoundTrip(n / 10);
      var s := Show(n);
      assert s[..|s| - 1] == Show(n / 10);
    }
  }

  /** Leading zeros do not change the number a digit string denotes. */
  lemma {:induction false} LeadingZeros(z: string, s: string)
    requires forall i | 0 <= i < |z| :: z[i] == '0'
    requires AllDigits(s)
    ensures AllDigits(z + s) && Value(z + s) == Value(s)
    decreases |s|
  {
    if s == [] {
      assert z + s == z;
      AllZeros(z);
    } else {
      var t := z + s;
      assert t[..|t| - 1] == z + s[..|s| - 1];
      LeadingZeros(z, s[..|s| - 1]);
    }
  }

  lemma {:induction false} AllZeros(z: string)
    requires forall i | 0 <= i < |z| :: z[i] == '0'
    ensures AllDigits(z) && Value(z) == 0
  {
    if z != [] {
      AllZeros(z[..|z| - 1]);
    }
  }

  /** `str(n)` has at most `w` characters exactly when `n < 10^w`. */
  lemma {:induction false} ShowLength(n: nat, w: nat)
    requires w >= 1
    ensures |Show(n)| <= w <==> n < Pow10(w)
    decreases n
  {
    if n >= 10 {
      if w == 1 {
        assert |Show(n)| >= 2;
      } else {
        ShowLength(n / 10, w - 1);
      }
    }
  }
}
