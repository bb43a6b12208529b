/** Natural numbers in decimal, without leading zeros. */
module Decimal {
  import opened Lexical

  predicate IsDigit(c: char) { '0' <= c <= '9' }

  predicate AllDigits(s: string) { forall i :: 0 <= i < |s| ==> IsDigit(s[i]) }

  function Digit(d: nat): (c: char)
    requires d < 10
    ensures IsDigit(c) && c as int - '0' as int == d
  {
    ('0' as int + d) as char
  }

  function Digits(n: nat): (s: string)
    ensures s != "" && AllDigits(s)
  {
    if n < 10 then [Digit(n)] else Digits(n / 10) + [Digit(n % 10)]
  }

  function Value(s: string): nat
    requires AllDigits(s)
  {
    if s == "" then 0 else Value(s[..|s| - 1]) * 10 + (s[|s| - 1] as int - '0' as int)
  }

  lemma {:induction false} ValueOfDigits(n: nat)
    ensures Value(Digits(n)) == n
  {
    var s := Digits(n);
    if n < 10 {
      assert s[..0] == "";
    } else {
      assert s[..|s| - 1] == Digits(n / 10);
      ValueOfDigits(n / 10);
    }
  }

  /** Digits are the ten characters from 48 on, and no number but 0 starts with the first. */
  lemma {:induction false} DigitsAre(c: char, n: nat)
    ensures IsDigit(c) <==> 48 <= c as int <= 57
    ensures Digits(0) == "0" && (n > 0 ==> Digits(n)[0] != '0')
  {
    if n >= 10 { DigitsAre(c, n / 10); }
  }

  lemma {:induction false} DigitsInjective(a: nat, b: nat)
    requires Digits(a) == Digits(b)
    ensures a == b
  {
    ValueOfDigits(a);
    ValueOfDigits(b);
  }

  function Pow10(n: nat): (p: nat)
    ensures p >= 1
  {
    if n == 0 then 1 else 10 * Pow10(n - 1)
  }

  lemma {:induction false} TimesTen(a: nat, d: nat)
    ensures a * (10 * d) == 10 * (a * d)
  {
  }

  lemma {:induction false} Pow10Sum(a: nat, b: nat)
    ensures Pow10(a + b) == Pow10(a) * Pow10(b)
  {
    if b > 0 { Pow10Sum(a, b - 1); }
  }

  lemma {:induction false} ValueConcat(a: string, b: string)
    requires AllDigits(a) && AllDigits(b)
    ensures AllDigits(a + b) && Value(a + b) == Value(a) * Pow10(|b|) + Value(b)
  {
    if b == "" {
      assert a + b == a;
    } else {
      var f := b[..|b| - 1];
      assert (a + b)[..|a + b| - 1] == a + f;
      ValueConcat(a, f);
      assert Value(a) * Pow10(|b|) == 10 * (Value(a) * Pow10(|f|));
    }
  }

  lemma {:induction false} ValueBound(s: string)
    requires AllDigits(s)
    ensures Value(s) < Pow10(|s|)
  {
    if s != "" { ValueBound(s[..|s| - 1]); }
  }

  /** Equally long digit strings compare as their numbers do, and are told apart by them. */
  lemma {:induction false} DigitsCompare(a: string, b: string)
    requires AllDigits(a) && AllDigits(b) && |a| == |b|
    ensures Less(a, b) <==> Value(a) < Value(b)
    ensures a == b <==> Value(a) == Value(b)
  {
    if a != "" {
      var fa, fb, la, lb := a[..|a| - 1], b[..|b| - 1], a[|a| - 1], b[|b| - 1];
      assert a == fa + [la] && b == fb + [lb];
      DigitsCompare(fa, fb);
      LessConcat(fa, [la], fb, [lb]);
      assert Less([la], [lb]) <==> la < lb by { assert [la][1..] == "" && [lb][1..] == ""; }
    }
  }

  /** A number written with a fixed number of digits. */
  function Padded(n: nat, width: nat): (s: string)
    ensures |s| == width && AllDigits(s)
  {
    if width == 0 then "" else Padded(n / 10, width - 1) + [Digit(n % 10)]
  }

  lemma {:induction false} ValueOfPadded(n: nat, width: nat)
    requires n < Pow10(width)
    ensures Value(Padded(n, width)) == n
  {
    var s := Padded(n, width);
    if width > 0 {
      assert s[..|s| - 1] == Padded(n / 10, width - 1);
      ValueOfPadded(n / 10, width - 1);
    }
  }

  lemma {:induction false} PaddedOfValue(s: string)
    requires AllDigits(s)
    ensures Padded(Value(s), |s|) == s
  {
    if s != "" {
      PaddedOfValue(s[..|s| - 1]);
      assert s == s[..|s| - 1] + [s[|s| - 1]];
    }
  }
}
