/** Decimal rendering of numbers, as template literals and `String(n)` do it,
    and `padStart`. */
module Decimal {
  import opened Text

  predicate IsDigit(c: char)
  {
    '0' <= c <= '9'
  }

  function DigitChar(d: nat): (c: char)
    requires d < 10
    ensures IsDigit(c)
  {
    ('0' as int + d) as char
  }

  function DigitValue(c: char): int
  {
    c as int - '0' as int
  }

  /** `String(n)` for a non-negative integer: no leading zeros. */
  function NatToString(n: nat): (s: string)
    ensures |s| >= 1 && (|s| > 1 ==> s[0] != '0')
    ensures forall i :: 0 <= i < |s| ==> IsDigit(s[i])
    decreases n
  {
    if n < 10 then [DigitChar(n)] else NatToString(n / 10) + [DigitChar(n % 10)]
  }

  /** `String(i)` for any integer: a minus sign before the magnitude. */
  function IntToString(i: int): string
  {
    if i < 0 then "-" + NatToString(-i) else NatToString(i)
  }

  /** The number a string of decimal digits denotes. */
  function Value(s: string): int
  {
    if s == [] then 0 else Value(s[..|s| - 1]) * 10 + DigitValue(s[|s| - 1])
  }

  /** Rendering a number and reading it back gives the number. */
  lemma {:induction false} ValueOfNatToString(n: nat)
    ensures Value(NatToString(n)) == n
    decreases n
  {
    if n >= 10 {
      ValueOfNatToString(n / 10);
      var s := NatToString(n);
      assert s[..|s| - 1] == NatToString(n / 10);
    }
  }

  /** `s.padStart(width, fill)` with a one-character fill string. */
  function PadStart(s: string, width: nat, fill: char): string
  {
    if |s| >= width then s else seq(width - |s|, _ => fill) + s
  }

  function Pow10(k: nat): (p: nat)
    ensures p >= 1
  {
    if k == 0 then 1 else 10 * Pow10(k - 1)
  }

  /** The last `width` decimal digits of `n`, zeros in front. */
  function FixedDigits(n: nat, width: nat): (s: string)
    ensures |s| == width
  {
    if width == 0 then [] else FixedDigits(n / 10, width - 1) + [DigitChar(n % 10)]
  }

  /** A number of exactly `width` digits renders as its fixed-width form. */
  lemma {:induction false} NatToStringIsFixed(n: nat, width: nat)
    requires 1 <= width && Pow10(width - 1) <= n < Pow10(width)
    ensures NatToString(n) == FixedDigits(n, width)
    decreases width
  {
    if width == 1 {
      assert FixedDigits(n, 1) == FixedDigits(n / 10, 0) + [DigitChar(n % 10)];
    } else {
      assert Pow10(width - 2) <= n / 10 < Pow10(width - 1);
      NatToStringIsFixed(n / 10, width - 1);
    }
  }

  /** Among numbers below 10^width, string order of the fixed-width forms is
      numeric order, and the forms are equal only for equal numbers. */
  lemma {:induction false} FixedDigitsOrder(m: nat, n: nat, width: nat)
    requires m < Pow10(width) && n < Pow10(width)
    ensures Below(FixedDigits(m, width), FixedDigits(n, width)) <==> m < n
    ensures FixedDigits(m, width) == FixedDigits(n, width) <==> m == n
    decreases width
  {
    if width == 0 {
      BelowIrreflexive([]);
    } else {
      FixedDigitsOrder(m / 10, n / 10, width - 1);
      var p, q := FixedDigits(m / 10, width - 1), FixedDigits(n / 10, width - 1);
      var c, d := DigitChar(m % 10), DigitChar(n % 10);
      BelowAppend(p, [c], q, [d]);
      assert Below([c], [d]) <==> c < d by {
        assert [c][1..] == [] && [d][1..] == [];
        BelowIrreflexive([]);
      }
      assert m == 10 * (m / 10) + m % 10 && n == 10 * (n / 10) + n % 10;
      if p + [c] == q + [d] {
        assert (p + [c])[..width - 1] == p && (q + [d])[..width - 1] == q;
        assert (p + [c])[width - 1] == c && (q + [d])[width - 1] == d;
      }
    }
  }
}
