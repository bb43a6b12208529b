/** What a JavaScript number shows is the shortest: reading is monotone, so of all digit strings that
    read as the number the shown one ends in the most zeros, and of those it is the nearest. */
module ShortestDigits {
  import opened Decimal
  import opened JsNumber

  // ---- reading keeps order ----

  lemma {:induction false} SpacingBounds(n: nat)
    ensures n < EXACT * Spacing(n)
    ensures n >= EXACT ==> EXACT / 2 * Spacing(n) <= n
  {
    if n >= EXACT { SpacingBounds(n / 2); }
  }

  lemma {:induction false} SpacingOrder(m: nat, n: nat)
    requires m <= n
    ensures Spacing(m) == Spacing(n) || 2 * Spacing(m) <= Spacing(n)
  {
    if m >= EXACT { SpacingOrder(m / 2, n / 2); }
  }

  lemma {:induction false} RoundedMonotone(m: nat, n: nat, s: nat)
    requires m <= n && s >= 1
    ensures Rounded(m, s) <= Rounded(n, s)
  {
    hide Rounded;
    DivOrder(m, n, s);
    if m / s < n / s { LowerQuotient(m, n, s); } else { SameQuotient(m, n, s); }
  }

  lemma {:induction false} LowerQuotient(m: nat, n: nat, s: nat)
    requires s >= 1 && m / s < n / s
    ensures Rounded(m, s) <= Rounded(n, s)
  {
    hide Rounded;
    RoundedWithin(m, s);
    RoundedWithin(n, s);
    MulOrder(m / s, n / s, s);
  }

  lemma {:induction false} DivOrder(m: nat, n: nat, s: nat)
    requires m <= n && s >= 1
    ensures m / s <= n / s
    ensures m / s == n / s ==> m % s <= n % s
  {
    var a, b := m / s, n / s;
    assert m == a * s + m % s && n == b * s + n % s;
    MulOrder(b, a, s);
  }

  lemma {:induction false} RoundedWithin(n: nat, s: nat)
    requires s >= 1
    ensures n / s * s <= Rounded(n, s) <= n / s * s + s
  {
    assert (n / s + 1) * s == n / s * s + s;
  }

  lemma {:induction false} SameQuotient(m: nat, n: nat, s: nat)
    requires s >= 1 && m / s == n / s && m % s <= n % s
    ensures Rounded(m, s) <= Rounded(n, s)
  {
    assert (n / s + 1) * s == n / s * s + s;
  }

  lemma {:induction false} RoundedMultiple(k: nat, s: nat)
    requires s >= 1
    ensures Rounded(k * s, s) == k * s
  {
    QuotientIs(k * s, s, k, 0);
    RoundedIsNear(k * s, s);
  }

  /** Larger digits never read as a smaller number. */
  lemma {:induction false} NumberMonotone(m: nat, n: nat)
    requires m <= n
    ensures Number(m) <= Number(n)
  {
    hide Rounded, Spacing;
    var s, t := Spacing(m), Spacing(n);
    SpacingOrder(m, n);
    if s == t {
      RoundedMonotone(m, n, s);
    } else {
      SpacingBounds(m);
      RoundedMonotone(m, EXACT * s, s);
      RoundedMultiple(EXACT, s);
      LargeSpacing(n, t);
      SpacingBounds(n);
      RoundedMonotone(EXACT / 2 * t, n, t);
      RoundedMultiple(EXACT / 2, t);
    }
  }

  lemma {:induction false} LargeSpacing(n: nat, t: nat)
    requires t == Spacing(n) && t >= 2
    ensures n >= EXACT
  {
  }

  /** Between two digit strings that read as one number lies nothing else. */
  lemma {:induction false} ReadsBetween(v: nat, a: nat, n: nat, b: nat)
    requires a <= n <= b && Number(a) == v && Number(b) == v
    ensures Number(n) == v
  {
    NumberMonotone(a, n);
    NumberMonotone(n, b);
  }

  lemma {:induction false} SpacingIsSmall(n: nat)
    requires n >= 1
    ensures Spacing(n) <= n
  {
    if n >= EXACT { SpacingIsSmall(n / 2); }
  }

  /** No number is less than half its digits. */
  lemma {:induction false} NumberIsHalf(n: nat)
    ensures 2 * Number(n) >= n
  {
    hide Rounded, Spacing;
    RoundedIsNear(n, Spacing(n));
    if n >= 1 { SpacingIsSmall(n); }
  }

  /** What is read is a number. */
  lemma {:induction false} NumberIsNumber(n: nat)
    ensures Number(Number(n)) == Number(n)
  {
    hide Rounded, Spacing;
    NumberExactly(n);
    if n >= EXACT {
      var k := RoundsTo(n);
      MultipleFits(n, k);
      NumberExactly(k * Spacing(n));
    }
  }

  lemma {:induction false} RoundsTo(n: nat) returns (k: nat)
    requires n >= EXACT
    ensures EXACT / 2 <= k <= EXACT && Number(n) == k * Spacing(n)
  {
    hide Spacing;
    var s := Spacing(n);
    SpacingBounds(n);
    SpacingIsTight(n);
    MulOrder(EXACT, n / s, s);
    QuotientBelow(n, s, EXACT);
    k := if Number(n) == n / s * s then n / s else n / s + 1;
  }

  lemma {:induction false} QuotientBelow(n: nat, s: nat, b: nat)
    requires s >= 1 && n < b * s
    ensures n / s < b
  {
    MulOrder(b - 1, n / s, s);
    assert n / s * s <= n;
  }

  lemma {:induction false} MultipleFits(n: nat, k: nat)
    requires EXACT / 2 <= k <= EXACT
    ensures k * Spacing(n) % Spacing(k * Spacing(n)) == 0
  {
    hide Spacing;
    if n < EXACT {
      SmallSpacing(n);
      SmallSpacing(k);
    } else {
      var x := k * Spacing(n / 2);
      MultipleFits(n / 2, k);
      SpacingDoubles(n);
      ProductGrows(EXACT / 2, 1, k, Spacing(n / 2));
      DoubleFits(x);
      TwiceOf(k, Spacing(n / 2));
    }
  }

  lemma {:induction false} SmallSpacing(n: nat)
    requires n <= EXACT
    ensures n % Spacing(n) == 0
    ensures n < EXACT ==> Spacing(n) == 1
  {
    if n == EXACT { assert Spacing(EXACT) == 2 * Spacing(EXACT / 2) == 2; }
  }

  lemma {:induction false} SpacingDoubles(n: nat)
    requires n >= EXACT
    ensures Spacing(n) == 2 * Spacing(n / 2)
  {
  }

  lemma {:induction false} TwiceOf(k: nat, s: nat)
    ensures k * (2 * s) == 2 * (k * s)
  {
  }

  lemma {:induction false} DoubleFits(x: nat)
    requires 2 * x >= EXACT && x % Spacing(x) == 0
    ensures 2 * x % Spacing(2 * x) == 0
  {
    hide Spacing;
    SpacingDoubles(2 * x);
    assert 2 * x / 2 == x;
    TwiceDivides(x, Spacing(x));
  }

  lemma {:induction false} TwiceDivides(x: nat, s: nat)
    requires s >= 1 && x % s == 0
    ensures 2 * x % (2 * s) == 0
  {
    var q := x / s;
    assert x == q * s;
    TwiceOf(q, s);
    QuotientIs(2 * x, 2 * s, q, 0);
  }

  // ---- what is shown ----

  function Distance(a: nat, b: nat): nat { if a <= b then b - a else a - b }

  /** `n` is nearer to `v` than `m` is, or as near and not above it. */
  predicate Nearer(v: nat, n: nat, m: nat) {
    Distance(n, v) < Distance(m, v) || (Distance(n, v) == Distance(m, v) && n <= m)
  }

  ghost predicate Divides(p: nat, n: nat) { exists q: nat :: n == q * p }

  /** Nothing that reads as `v` is a multiple of `p`. */
  ghost predicate NoneReads(v: nat, p: nat) {
    forall m: nat :: Number(m) == v ==> !Divides(p, m)
  }

  /** `n` reads as `v` and is the nearest multiple of `p` that does. */
  ghost predicate NearestOf(v: nat, n: nat, p: nat) {
    Number(n) == v && Divides(p, n) && forall m: nat :: Number(m) == v && Divides(p, m) ==> Nearer(v, n, m)
  }

  /** A multiple of `p` lies at or below the one below `v`, or at or above the one above it. */
  lemma {:induction false} Beside(v: nat, p: nat, m: nat)
    requires p >= 1 && Divides(p, m)
    ensures m <= Down(v, p) || Down(v, p) + p <= m
  {
    var k: nat :| m == k * p;
    MulOrder(v / p, k, p);
    MulOrder(k, v / p, p);
  }

  lemma {:induction false} DownDivides(v: nat, p: nat)
    requires p >= 1
    ensures Divides(p, Down(v, p)) && Divides(p, Down(v, p) + p)
  {
    var q := DownIs(v, p);
    assert Down(v, p) + p == (q + 1) * p;
  }

  /** The choice between the two neighbours of `v`, and what it means if neither reads as `v`. */
  lemma {:induction false} Neighbours(v: nat, p: nat)
    requires p >= 1 && Number(v) == v
    ensures var lo, hi := Down(v, p), Down(v, p) + p;
      if Number(lo) == v && (Number(hi) != v || v - lo <= hi - v) then NearestOf(v, lo, p)
      else if Number(hi) == v then NearestOf(v, hi, p)
      else NoneReads(v, p)
  {
    hide Number, Down;
    var lo, hi := Down(v, p), Down(v, p) + p;
    DownDivides(v, p);
    forall m: nat | Number(m) == v && Divides(p, m)
      ensures (m <= lo && Number(lo) == v) || (hi <= m && Number(hi) == v)
    {
      Beside(v, p, m);
      if m <= lo { ReadsBetween(v, m, lo, v); } else { ReadsBetween(v, v, hi, m); }
    }
  }

  /** The search ends at the nearest multiple of some power of ten, no multiple of the next one up
      to the first it tried reading as the number. */
  lemma {:induction false} SearchEnds(v: nat, e: nat) returns (z: nat)
    requires Number(v) == v
    ensures z <= e && NearestOf(v, Shortest(v, e), Pow10(z)) && (z < e ==> NoneReads(v, Pow10(z + 1)))
  {
    hide Number, Down, NearestOf, NoneReads, Pow10;
    if e == 0 {
      z := 0;
      ItselfNearest(v);
    } else {
      Neighbours(v, Pow10(e));
      var lo := Down(v, Pow10(e));
      if Number(lo) == v || Number(lo + Pow10(e)) == v {
        z := e;
      } else {
        z := SearchEnds(v, e - 1);
      }
    }
  }

  lemma {:induction false} ItselfNearest(v: nat)
    requires Number(v) == v
    ensures NearestOf(v, v, Pow10(0))
  {
    hide Number;
    assert v == v * Pow10(0);
  }

  /** No multiple of a power of ten with more digits than the number and one more reads as it. */
  lemma {:induction false} TooRound(v: nat, e: nat)
    requires 0 < v < Pow10(e)
    ensures NoneReads(v, Pow10(e + 1))
  {
    hide Number;
    forall m: nat | Number(m) == v ensures !Divides(Pow10(e + 1), m) {
      NumberIsHalf(m);
      if Divides(Pow10(e + 1), m) {
        var q: nat :| m == q * Pow10(e + 1);
        if q == 0 { NumberExactly(0); } else { MulOrder(0, q, Pow10(e + 1)); }
        assert false;
      }
    }
  }

  lemma {:induction false} DigitsBound(n: nat)
    ensures n < Pow10(|Digits(n)|)
    ensures n > 0 ==> Pow10(|Digits(n)| - 1) <= n
  {
    if n >= 10 { DigitsBound(n / 10); } else { assert Pow10(1) == 10 && Pow10(0) == 1; }
  }

  /** How many zeros a number ends in. */
  function Zeros(n: nat): nat { if n == 0 || n % 10 != 0 then 0 else 1 + Zeros(n / 10) }

  lemma {:induction false} ZerosDivide(n: nat, k: nat)
    requires n > 0
    ensures Divides(Pow10(k), n) <==> k <= Zeros(n)
  {
    if k == 0 {
      assert n == n * Pow10(0);
    } else {
      TensDivide(n, k);
      if n % 10 == 0 { ZerosDivide(n / 10, k - 1); }
    }
  }

  lemma {:induction false} TensDivide(n: nat, k: nat)
    requires k > 0
    ensures Divides(Pow10(k), n) <==> n % 10 == 0 && Divides(Pow10(k - 1), n / 10)
  {
    var d := Pow10(k - 1);
    if Divides(Pow10(k), n) {
      var q: nat :| n == q * Pow10(k);
      TimesTen(q, d);
      TenTimes(n, q * d);
    }
    if n % 10 == 0 && Divides(d, n / 10) {
      var q: nat :| n / 10 == q * d;
      TimesTen(q, d);
      assert n == q * Pow10(k);
    }
  }

  lemma {:induction false} TenTimes(n: nat, a: nat)
    requires n == 10 * a
    ensures n % 10 == 0 && n / 10 == a
  {
  }

  /** `n` is what a number printed in the fewest digits shows: nothing that reads as the same
      number ends in more zeros, and of what ends in as many `n` is the nearest to it. */
  ghost predicate ReadsShortest(n: nat) {
    var v, z := Number(n), Zeros(n);
    && (forall m: nat :: Number(m) == v ==> Zeros(m) <= z)
    && (forall m: nat :: Number(m) == v && z <= Zeros(m) ==> Nearer(v, n, m))
  }

  /** The number shows `n` exactly if `n` reads as it and is the shortest. */
  lemma {:induction false} ShownExactly(v: nat, n: nat)
    requires Number(v) == v && v > 0
    ensures Shown(v) == n <==> Number(n) == v && ReadsShortest(n)
  {
    hide Number, Shortest, NearestOf, NoneReads, ReadsShortest;
    var e := |Digits(v)|;
    DigitsBound(v);
    TooRound(v, e);
    var z := SearchEnds(v, e);
    var w := Shown(v);
    NearestIsShortest(v, w, z);
    if Number(n) == v && ReadsShortest(n) { OneShortest(v, n, w); }
  }

  lemma {:induction false} NearestIsShortest(v: nat, n: nat, z: nat)
    requires v > 0 && NearestOf(v, n, Pow10(z)) && NoneReads(v, Pow10(z + 1))
    ensures Number(n) == v && Zeros(n) == z && ReadsShortest(n)
  {
    hide Number, Zeros, Pow10, Divides;
    NumberExactly(0);
    forall m: nat | Number(m) == v
      ensures Zeros(m) <= z && (Divides(Pow10(z), m) <==> z <= Zeros(m))
    {
      ZerosDivide(m, z);
      ZerosDivide(m, z + 1);
    }
  }

  lemma {:induction false} OneShortest(v: nat, a: nat, b: nat)
    requires Number(a) == v && Number(b) == v && ReadsShortest(a) && ReadsShortest(b)
    ensures a == b
  {
    hide Number, Zeros;
  }

  /** Digits without the zeros they end in: what the standard minimises. */
  function Significant(n: nat): int { |Digits(n)| - Zeros(n) }

  /** Nothing that reads as the number has fewer significant digits than what it shows. */
  lemma {:induction false} FewestDigits(v: nat, m: nat)
    requires Number(v) == v && Number(m) == v && v > 0
    ensures Significant(Shown(v)) <= Significant(m)
  {
    hide Number, Shown, Digits, Pow10, Zeros, Divides;
    var w := Shown(v);
    ShownExactly(v, w);
    NumberExactly(0);
    DigitsBound(m);
    DigitsBound(w);
    var k := |Digits(w)| - 1;
    ZerosAreDigits(m);
    if |Digits(m)| <= k {
      Pow10Order(|Digits(m)|, k);
      ReadsBetween(v, m, Pow10(k), w);
      ZerosOfPower(k);
    }
  }

  lemma {:induction false} Pow10Order(a: nat, b: nat)
    requires a <= b
    ensures Pow10(a) <= Pow10(b)
  {
    if a < b { Pow10Order(a, b - 1); }
  }

  lemma {:induction false} ZerosAreDigits(n: nat)
    requires n > 0
    ensures Zeros(n) < |Digits(n)|
  {
    if n >= 10 { ZerosAreDigits(n / 10); }
  }

  lemma {:induction false} ZerosOfPower(k: nat)
    ensures Zeros(Pow10(k)) == k
  {
    if k > 0 { ZerosOfPower(k - 1); }
  }
}
