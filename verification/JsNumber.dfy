/** JavaScript numbers, as far as non-negative integers go: which ones there are, what a digit string
    becomes, and what a number prints as (ECMA-262, Number::toString). */
module JsNumber {
  import opened Decimal

  const EXACT: nat := 0x20_0000_0000_0000  // 2^53

  /** The spacing of the floating-point numbers around `n`. */
  function Spacing(n: nat): (s: nat)
    ensures s >= 1
  {
    if n < EXACT then 1 else 2 * Spacing(n / 2)
  }

  /** The number a digit string becomes: the nearest representable one, ties to even. */
  function Number(n: nat): nat { Rounded(n, Spacing(n)) }

  function Rounded(n: nat, s: nat): nat
    requires s >= 1
  {
    var q, r := n / s, n % s;
    assert q * s >= 0 && (q + 1) * s >= 0;
    if 2 * r < s || (2 * r == s && q % 2 == 0) then q * s else (q + 1) * s
  }

  lemma {:induction false} RoundedIsNear(n: nat, s: nat)
    requires s >= 1
    ensures 2 * n - s <= 2 * Rounded(n, s) <= 2 * n + s
    ensures Rounded(n, s) == n <==> n % s == 0
    ensures Rounded(n, 1) == n
  {
    var q, r := n / s, n % s;
    assert n == q * s + r && (q + 1) * s == q * s + s;
  }

  lemma {:induction false} NumberExactly(n: nat)
    ensures Number(n) == n <==> n % Spacing(n) == 0
    ensures n < EXACT ==> Number(n) == n
  {
    hide Rounded;
    RoundedIsNear(n, Spacing(n));
    RoundedIsNear(n, 1);
  }

  lemma {:induction false} SpacingIsTight(n: nat)
    requires n >= EXACT
    ensures n / Spacing(n) >= EXACT / 2 && Spacing(n) >= 2
  {
    var half := Spacing(n / 2);
    if n / 2 >= EXACT { SpacingIsTight(n / 2); }
    assert n / (2 * half) == n / 2 / half by { DivTwice(n, half); }
  }

  lemma {:induction false} DivTwice(n: nat, d: nat)
    requires d >= 1
    ensures n / (2 * d) == n / 2 / d
  {
    var q, r := n / 2 / d, n / 2 % d;
    assert n / 2 == q * d + r && n == 2 * (n / 2) + n % 2;
    assert n == q * (2 * d) + (2 * r + n % 2);
    QuotientIs(n, 2 * d, q, 2 * r + n % 2);
  }

  lemma {:induction false} QuotientIs(n: nat, d: nat, q: nat, r: nat)
    requires n == q * d + r && r < d
    ensures n / d == q
  {
    MulOrder(q, n / d, d);
    MulOrder(n / d, q, d);
  }

  lemma {:induction false} MulOrder(a: nat, b: nat, d: nat)
    ensures a < b ==> a * d + d <= b * d
  {
    if a < b { assert (a + 1) * d <= b * d; }
  }

  /** Nothing from 2^53 on becomes a smaller number than that. */
  lemma {:induction false} NumberStaysLarge(n: nat)
    requires n >= EXACT
    ensures Number(n) >= EXACT
  {
    hide Spacing;
    SpacingIsTight(n);
    var s, q := Spacing(n), n / Spacing(n);
    ProductGrows(EXACT / 2, 2, q, s);
    ProductGrows(EXACT / 2, 2, q + 1, s);
  }

  lemma {:induction false} ProductGrows(a: nat, b: nat, c: nat, d: nat)
    requires a <= c && b <= d
    ensures a * b <= c * d
  {
    assert (c - a) * b >= 0 && c * (d - b) >= 0;
    assert c * d == a * b + (c - a) * b + c * (d - b);
  }

  /** Where the gaps begin, and which way a tie goes: to the even neighbour. */
  lemma {:induction false} FirstGap()
    ensures EXACT == 9_007_199_254_740_992
    ensures Number(9_007_199_254_740_993) == 9_007_199_254_740_992
    ensures Number(9_007_199_254_740_995) == 9_007_199_254_740_996
  {
    assert Spacing(EXACT + 1) == 2 * Spacing((EXACT + 1) / 2) == 2;
    assert Spacing(EXACT + 3) == 2 * Spacing((EXACT + 3) / 2) == 2;
  }

  // ---- how a number prints ----

  /** The multiple of `p` at or below `v`. */
  function Down(v: nat, p: nat): (lo: nat)
    requires p >= 1
    ensures lo <= v < lo + p
  {
    assert v / p * p >= 0;
    v / p * p
  }

  /** The fewest digits that read back as the number: the roundest multiple of a power of ten,
      from 10^e down, that becomes it; the nearer one if both neighbours do. */
  function Shortest(v: nat, e: nat): nat {
    if e == 0 then v
    else
      var lo := Down(v, Pow10(e));
      var hi := lo + Pow10(e);
      if Number(lo) == v && (Number(hi) != v || v - lo <= hi - v) then lo
      else if Number(hi) == v then hi else Shortest(v, e - 1)
  }

  const EXPONENT_FROM: nat := 1_000_000_000_000_000_000_000  // 10^21

  /** The integer whose digits a number shows. */
  function Shown(v: nat): nat { Shortest(v, |Digits(v)|) }

  function StripZeros(s: string): string { if s != "" && s[|s| - 1] == '0' then StripZeros(s[..|s| - 1]) else s }

  /** A number in a template string: its shown digits, or from 10^21 a mantissa and an exponent. */
  function NumberText(v: nat): string {
    var digits := Digits(Shown(v));
    if Shown(v) < EXPONENT_FROM then digits
    else
      var mantissa := StripZeros(digits);
      (if |mantissa| <= 1 then mantissa else mantissa[..1] + "." + mantissa[1..]) + "e+" + Digits(|digits| - 1)
  }

  /** What is shown reads back as the number. */
  lemma {:induction false} ShortestReads(v: nat, e: nat)
    requires Number(v) == v
    ensures Number(Shortest(v, e)) == v
  {
    hide Number;
    if e > 0 { ShortestReads(v, e - 1); }
  }

  /** Below 2^53 a number shows all its digits. */
  lemma {:induction false} SmallShowsItself(v: nat, e: nat)
    requires v < EXACT
    ensures Shortest(v, e) == v
  {
    hide Number, Pow10;
    if e > 0 {
      var lo := Down(v, Pow10(e));
      var hi := lo + Pow10(e);
      NumberExactly(lo);
      if hi < EXACT { NumberExactly(hi); } else { NumberStaysLarge(hi); }
      SmallShowsItself(v, e - 1);
    }
  }

  lemma {:induction false} StripIsPrefix(s: string)
    ensures StripZeros(s) <= s
  {
    if s != "" && s[|s| - 1] == '0' { StripIsPrefix(s[..|s| - 1]); }
  }

  /** A number with an exponent ends in a digit but is not all digits. */
  lemma {:induction false} ExponentText(v: nat)
    requires Shown(v) >= EXPONENT_FROM
    ensures var text := NumberText(v);
      text != "" && IsDigit(text[|text| - 1]) && '|' !in text && !AllDigits(text)
  {
    hide Digits, Shortest, StripZeros;
    var digits := Digits(Shown(v));
    var mantissa, power := StripZeros(digits), Digits(|digits| - 1);
    StripIsPrefix(digits);
    assert AllDigits(mantissa);
    var head := if |mantissa| <= 1 then mantissa else mantissa[..1] + "." + mantissa[1..];
    var text := head + "e+" + power;
    assert NumberText(v) == text;
    assert text[|head|] == 'e' && text[|text| - 1] == power[|power| - 1];
    assert forall i :: 0 <= i < |head| ==> IsDigit(head[i]) || head[i] == '.';
    assert forall i :: 0 <= i < |power| ==> IsDigit(power[i]);
    assert forall i :: 0 <= i < |text| ==> text[i] != '|';
  }

  lemma {:induction false} StripIs(s: string) returns (zeros: string)
    ensures s == StripZeros(s) + zeros && forall i :: 0 <= i < |zeros| ==> zeros[i] == '0'
    ensures StripZeros(s) != "" ==> StripZeros(s)[|StripZeros(s)| - 1] != '0'
  {
    if s != "" && s[|s| - 1] == '0' {
      zeros := StripIs(s[..|s| - 1]);
      assert s == StripZeros(s) + zeros + [s[|s| - 1]];
      zeros := zeros + "0";
    } else {
      zeros := "";
    }
  }

  /** A number in full, or from 10^21 in scientific notation: the first digit, the others without the
      zeros at the end behind a point if any are left, and how many digits follow the first. */
  lemma {:induction false} TextIs(v: nat) returns (more: string, zeros: string)
    requires v > 0
    ensures Shown(v) < 1_000_000_000_000_000_000_000 ==> NumberText(v) == Digits(Shown(v))
    ensures Shown(v) >= 1_000_000_000_000_000_000_000 ==>
      && Digits(Shown(v)) == Digits(Shown(v))[..1] + more + zeros
      && (forall i :: 0 <= i < |zeros| ==> zeros[i] == '0') && (more != "" ==> more[|more| - 1] != '0')
      && NumberText(v) == Digits(Shown(v))[..1] + (if more == "" then "" else "." + more)
                          + "e+" + Digits(|more + zeros|)
  {
    hide Digits, Shortest, StripZeros;
    var digits := Digits(Shown(v));
    more, zeros := "", "";
    if Shown(v) >= EXPONENT_FROM {
      zeros := StripIs(digits);
      DigitsAre('0', Shown(v));
      var mantissa := StripZeros(digits);
      assert mantissa != "";
      assert mantissa[0] == digits[0];
      more := mantissa[1..];
      assert mantissa == mantissa[..1] + more && digits[..1] == mantissa[..1];
    }
  }

  // ---- one number at length ----

  const TWO60: nat := 0x1000_0000_0000_0000

  function PowTwo(k: nat): (p: nat)
    ensures p >= 1
  {
    if k == 0 then 1 else 2 * PowTwo(k - 1)
  }

  lemma {:induction false} SpacingAtMost(n: nat, k: nat)
    requires n < EXACT * PowTwo(k)
    ensures Spacing(n) <= PowTwo(k)
  {
    if n >= EXACT { SpacingAtMost(n / 2, k - 1); }
  }

  /** A number is never further from its digits than half the spacing there. */
  lemma {:induction false} NumberIsNear(n: nat, k: nat)
    requires n < EXACT * PowTwo(k)
    ensures 2 * n - PowTwo(k) <= 2 * Number(n) <= 2 * n + PowTwo(k)
  {
    hide Rounded, Spacing;
    SpacingAtMost(n, k);
    RoundedIsNear(n, Spacing(n));
  }

  lemma {:induction false} Spacing60()
    ensures Spacing(TWO60) == 256 && Number(TWO60) == TWO60
    ensures Spacing(1152921504606847000) == 256 && Number(1152921504606847000) == TWO60
  {
    SpacingSteps(TWO60);
    SpacingSteps(1152921504606847000);
  }

  lemma {:induction false} SpacingSteps(n: nat)
    requires EXACT * 128 <= n < EXACT * 256
    ensures Spacing(n) == 256
  {
    assert Spacing(n) == 2 * Spacing(n / 2) && Spacing(n / 2) == 2 * Spacing(n / 4);
    assert Spacing(n / 4) == 2 * Spacing(n / 8) && Spacing(n / 8) == 2 * Spacing(n / 16);
    assert Spacing(n / 16) == 2 * Spacing(n / 32) && Spacing(n / 32) == 2 * Spacing(n / 64);
    assert Spacing(n / 64) == 2 * Spacing(n / 128) && Spacing(n / 128) == 2 * Spacing(n / 256);
  }

  lemma {:induction false} FarIsOther(n: nat)
    requires n < EXACT * 2048 && (n + 1024 < TWO60 || TWO60 + 1024 < n)
    ensures Number(n) != TWO60
  {
    assert PowTwo(11) == 2048 by { assert PowTwo(4) == 16 && PowTwo(8) == 256; }
    NumberIsNear(n, 11);
  }

  /** No rounder number than a multiple of a thousand reads as 2^60. */
  lemma {:induction false} NothingRounder(e: nat)
    requires 3 <= e <= 19
    ensures Shortest(TWO60, e) == Shortest(TWO60, 3)
  {
    hide Number, Pow10, Shortest;
    if e > 3 {
      NothingRounder(e - 1);
      RoundNeighbours(e);
      FarIsOther(Down(TWO60, Pow10(e)));
      FarIsOther(Down(TWO60, Pow10(e)) + Pow10(e));
      ShortestStep(TWO60, e);
    }
  }

  lemma {:induction false} ShortestStep(v: nat, e: nat)
    requires e > 0 && Number(Down(v, Pow10(e))) != v && Number(Down(v, Pow10(e)) + Pow10(e)) != v
    ensures Shortest(v, e) == Shortest(v, e - 1)
  {
  }

  lemma {:induction false} RoundNeighbours(e: nat)
    requires 4 <= e <= 19
    ensures var lo := Down(TWO60, Pow10(e));
      lo + 1024 < TWO60 && TWO60 + 1024 < lo + Pow10(e) < EXACT * 2048
  {
    hide Pow10, Down;
    Pow4();
    Pow10Sum(e - 4, 4);
    PowersUpTo19(e);
    NeighboursOf(Pow10(e), Pow10(e - 4));
  }

  lemma {:induction false} NeighboursOf(p: nat, f: nat)
    requires p == f * 10000 && 1 <= p <= 10_000_000_000_000_000_000
    ensures var lo := Down(TWO60, p);
      lo + 1024 < TWO60 && TWO60 + 1024 < lo + p < EXACT * 2048
  {
    hide Down;
    var q := DownIs(TWO60, p);
    Regroup(q, f);
    var k := q * f;
    assert Down(TWO60, p) == k * 10000;
  }

  lemma {:induction false} DownIs(v: nat, p: nat) returns (q: nat)
    requires p >= 1
    ensures Down(v, p) == q * p
  {
    q := v / p;
  }

  lemma {:induction false} Regroup(q: nat, f: nat)
    ensures q * (f * 10000) == q * f * 10000
  {
  }

  lemma {:induction false} Pow4()
    ensures Pow10(4) == 10000 && Pow10(3) == 1000
  {
    assert Pow10(2) == 100;
  }

  lemma {:induction false} PowersUpTo19(e: nat)
    requires e <= 19
    decreases 19 - e
    ensures Pow10(e) <= 10_000_000_000_000_000_000
  {
    if e < 19 { PowersUpTo19(e + 1); } else { Pow19(); }
  }

  lemma {:induction false} Pow19()
    ensures Pow10(19) == 10_000_000_000_000_000_000
  {
    assert Pow10(4) == 10000 by { assert Pow10(2) == 100; }
    Pow10Sum(4, 4);
    Pow10Sum(8, 8);
    Pow10Sum(16, 3);
    assert Pow10(3) == 1000 by { assert Pow10(1) == 10; }
  }

  lemma {:induction false} DigitCount(n: nat, k: nat)
    requires k >= 1 && Pow10(k - 1) <= n < Pow10(k)
    ensures |Digits(n)| == k
  {
    if k > 1 {
      assert Pow10(k) == 10 * Pow10(k - 1) && Pow10(k - 1) == 10 * Pow10(k - 2);
      DigitCount(n / 10, k - 1);
    }
  }

  lemma {:induction false} ThousandsRead()
    ensures var lo := Down(TWO60, 1000);
      lo + 1000 == 1152921504606847000 && Number(lo) != TWO60 && Number(lo + 1000) == TWO60
  {
    assert PowTwo(7) == 128 by { assert PowTwo(3) == 8; }
    assert Down(TWO60, 1000) == 1152921504606846000;
    hide Number, Spacing;
    NumberIsNear(1152921504606846000, 7);
    Spacing60();
  }

  lemma {:induction false} ShortestTakes(v: nat, e: nat)
    requires e > 0
    requires var lo := Down(v, Pow10(e)); Number(lo) != v && Number(lo + Pow10(e)) == v
    ensures Shortest(v, e) == Down(v, Pow10(e)) + Pow10(e)
  {
  }

  lemma {:induction false} Shown60()
    ensures Shown(TWO60) == 1152921504606847000
  {
    hide Number, Digits, Shortest, Down, Pow10;
    Pow18();
    DigitCount(TWO60, 19);
    NothingRounder(19);
    Pow4();
    ThousandsRead();
    ShortestTakes(TWO60, 3);
  }

  lemma {:induction false} Pow18()
    ensures Pow10(18) <= TWO60 < Pow10(19)
  {
    Pow19();
    assert Pow10(19) == 10 * Pow10(18);
  }
}
