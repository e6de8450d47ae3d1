/** Decimal numerals: strconv.Itoa, zero-padded fields and their parsing. */
module Decimal {

  function Digit(d: nat): (c: char)
    requires d < 10
    ensures '0' <= c <= '9'
  {
    '0' + d as char
  }

  predicate IsDigit(c: char) { '0' <= c <= '9' }

  function DigitValue(c: char): (d: nat)
    requires IsDigit(c)
    ensures d < 10
  {
    (c - '0') as nat
  }

  function Itoa(n: nat): string {
    if n < 10 then [Digit(n)] else Itoa(n / 10) + [Digit(n % 10)]
  }

  // ---- fields of fixed width ----

  function Pow10(w: nat): (p: nat)
    ensures p > 0
  {
    if w == 0 then 1 else 10 * Pow10(w - 1)
  }

  /** The numeral of `n` in `w` digits, with leading zeros. */
  function Padded(n: nat, w: nat): (s: string)
    ensures |s| == w
  {
    if w == 0 then "" else Padded(n / 10, w - 1) + [Digit(n % 10)]
  }

  predicate AllDigits(s: string) {
    forall i :: 0 <= i < |s| ==> IsDigit(s[i])
  }

  function ParseNat(s: string): nat
    requires AllDigits(s)
  {
    if s == [] then 0 else 10 * ParseNat(s[..|s| - 1]) + DigitValue(s[|s| - 1])
  }

  lemma {:induction false} PaddedDigits(n: nat, w: nat)
    ensures AllDigits(Padded(n, w))
  {
    if w > 0 {
      PaddedDigits(n / 10, w - 1);
    }
  }

  /** Reading back a padded numeral. */
  lemma {:induction false} ParsePadded(n: nat, w: nat)
    requires n < Pow10(w)
    ensures AllDigits(Padded(n, w)) && ParseNat(Padded(n, w)) == n
  {
    PaddedDigits(n, w);
    if w > 0 {
      assert n / 10 < Pow10(w - 1);
      ParsePadded(n / 10, w - 1);
      var s := Padded(n, w);
      assert s[..w - 1] == Padded(n / 10, w - 1);
      assert DigitValue(s[w - 1]) == n % 10;
    }
  }

  lemma {:induction false} PaddedParse(s: string)
    requires AllDigits(s)
    ensures ParseNat(s) < Pow10(|s|) && Padded(ParseNat(s), |s|) == s
  {
    if s != [] {
      PaddedParse(s[..|s| - 1]);
      assert s == s[..|s| - 1] + [s[|s| - 1]];
    }
  }

  /** strconv.Itoa: the shortest numeral that reads back as the number. */
  lemma {:induction false} ItoaParse(n: nat)
    ensures AllDigits(Itoa(n)) && Itoa(n) != "" && ParseNat(Itoa(n)) == n
    ensures n > 0 ==> Itoa(n)[0] != '0'
  {
    var s := Itoa(n);
    assert DigitValue(Digit(n % 10)) == n % 10;
    if n >= 10 {
      ItoaParse(n / 10);
      assert s[..|s| - 1] == Itoa(n / 10);
    } else {
      assert s[..|s| - 1] == [] && ParseNat([]) == 0;
    }
  }
}
