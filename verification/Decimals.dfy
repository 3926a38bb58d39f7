/** Decimal numerals: printing, zero padding, parsing, and their order as text. */
module Decimals {
  import Lex

  predicate IsDigit(c: char) {
    '0' <= c <= '9'
  }

  ghost predicate Digits(s: string) {
    forall i :: 0 <= i < |s| ==> IsDigit(s[i])
  }

  function DigitValue(c: char): nat
    requires IsDigit(c)
  {
    (c as int) - ('0' as int)
  }

  function Digit(d: nat): (c: char)
    requires d < 10
    ensures IsDigit(c) && DigitValue(c) == d
  {
    (('0' as int) + d) as char
  }

  function Dec(n: nat): (s: string)
    ensures |s| > 0 && Digits(s)
  {
    if n < 10 then [Digit(n)] else Dec(n / 10) + [Digit(n % 10)]
  }

  function Value(s: string): nat
    requires Digits(s)
  {
    if s == [] then 0 else Value(s[..|s| - 1]) * 10 + DigitValue(s[|s| - 1])
  }

  lemma {:induction false} ValueDec(n: nat)
    ensures Value(Dec(n)) == n
  {
    if n < 10 {
      assert Dec(n)[..0] == [];
    } else {
      ValueDec(n / 10);
      assert Dec(n)[..|Dec(n)| - 1] == Dec(n / 10);
    }
  }

  /** The numeral left-padded with zeros to a width. */
  function Padded(n: nat, width: nat): (s: string)
    ensures Digits(s) && |s| >= width
  {
    var s := Dec(n);
    if |s| >= width then s else seq(width - |s|, _ => '0') + s
  }

  lemma {:induction false} ValueZeros(k: nat, s: string)
    requires Digits(s)
    ensures Digits(seq(k, _ => '0') + s) && Value(seq(k, _ => '0') + s) == Value(s)
  {
    var zeros := seq(k, _ => '0');
    if s == [] {
      assert zeros + s == zeros;
      if k > 0 {
        ValueZeros(k - 1, []);
        assert zeros[..k - 1] == seq(k - 1, _ => '0') == seq(k - 1, _ => '0') + [];
      }
    } else {
      ValueZeros(k, s[..|s| - 1]);
      assert (zeros + s)[..k + |s| - 1] == zeros + s[..|s| - 1];
    }
  }

  lemma ValuePadded(n: nat, width: nat)
    ensures Value(Padded(n, width)) == n
  {
    ValueDec(n);
    if |Dec(n)| < width { ValueZeros(width - |Dec(n)|, Dec(n)); }
  }

  lemma {:induction false} LexSnoc(s: string, c: char, t: string, d: char)
    requires |s| == |t|
    ensures Lex.Less(s + [c], t + [d]) <==> Lex.Less(s, t) || (s == t && c < d)
  {
    if s == [] {
      assert s + [c] == [c] && t + [d] == [d];
    } else {
      assert (s + [c])[1..] == s[1..] + [c] && (t + [d])[1..] == t[1..] + [d];
      LexSnoc(s[1..], c, t[1..], d);
      assert s == t <==> s[0] == t[0] && s[1..] == t[1..];
    }
  }

  /** Numerals of equal width compare as text exactly as they compare as numbers. */
  lemma {:induction false} SameWidthOrder(s: string, t: string)
    requires Digits(s) && Digits(t) && |s| == |t|
    ensures Lex.Less(s, t) <==> Value(s) < Value(t)
    ensures s == t <==> Value(s) == Value(t)
  {
    if s != [] {
      var n := |s| - 1;
      SameWidthOrder(s[..n], t[..n]);
      assert s == s[..n] + [s[n]] && t == t[..n] + [t[n]];
      LexSnoc(s[..n], s[n], t[..n], t[n]);
    }
  }

  function Pow10(k: nat): nat {
    if k == 0 then 1 else 10 * Pow10(k - 1)
  }

  lemma {:induction false} DecLength(n: nat, k: nat)
    requires k > 0
    ensures |Dec(n)| <= k <==> n < Pow10(k)
  {
    if n >= 10 {
      if k == 1 {
        assert Pow10(1) == 10 * Pow10(0) == 10;
      } else {
        DecLength(n / 10, k - 1);
      }
    } else {
      assert 10 <= Pow10(k) by { PowGrows(k); }
    }
  }

  lemma {:induction false} PowGrows(k: nat)
    requires k > 0
    ensures Pow10(k) >= 10
  {
    if k > 1 { PowGrows(k - 1); } else { assert Pow10(1) == 10 * Pow10(0); }
  }
}
