/** The jitter fraction (jitter.rs): one step of a 64-bit linear congruential generator, of which
    the top 31 bits are kept. */
module Jitter {

  const TWO31: int := 0x8000_0000
  const TWO33: int := 0x2_0000_0000
  const TWO64: int := 0x1_0000_0000_0000_0000

  const MULTIPLIER: int := 6364136223846793005
  const INCREMENT: int := 1442695040888963407

  /** The multiplier's inverse modulo 2^64, and the quotient that shows it. */
  const INVERSE: int := 13877824140714322085
  const QUOTIENT: int := 4787856489426250814

  type Word = n: int | 0 <= n < 0x1_0000_0000_0000_0000

  function Scramble(seed: Word): Word {
    (seed * MULTIPLIER + INCREMENT) % TWO64
  }

  function Bits(seed: Word): (b: nat)
    ensures b < TWO31
  {
    Scramble(seed) / TWO33
  }

  function LcgFraction(seed: Word): real {
    var f := Bits(seed) as real / TWO31 as real;
    if f < 1.0 then f else 1.0
  }

  /** The fraction is always below 1, so the cap never acts, and it is exactly the kept bits. */
  lemma {:induction false} CapNeverActs(seed: Word)
    ensures 0.0 <= LcgFraction(seed) < 1.0
    ensures LcgFraction(seed) * TWO31 as real == Bits(seed) as real
  {
  }

  // ---- the scramble is a bijection ----

  function Unscramble(word: Word): Word {
    ((word - INCREMENT) * INVERSE) % TWO64
  }

  lemma {:induction false} ModIs(a: int, q: int, r: int)
    requires a == q * TWO64 + r && 0 <= r < TWO64
    ensures a % TWO64 == r
  {
  }

  /** Scrambling and unscrambling are inverse, both ways. */
  lemma {:induction false} ScrambleIsBijective(seed: Word)
    ensures Unscramble(Scramble(seed)) == seed
    ensures Scramble(Unscramble(seed)) == seed
  {
    assert MULTIPLIER * INVERSE == QUOTIENT * TWO64 + 1;
    var k := (seed * MULTIPLIER + INCREMENT) / TWO64;
    var w := Scramble(seed);
    assert w - INCREMENT == seed * MULTIPLIER - k * TWO64;
    assert (w - INCREMENT) * INVERSE == (seed * QUOTIENT - k * INVERSE) * TWO64 + seed;
    ModIs((w - INCREMENT) * INVERSE, seed * QUOTIENT - k * INVERSE, seed);
    var j := ((seed - INCREMENT) * INVERSE) / TWO64;
    var u := Unscramble(seed);
    assert u == (seed - INCREMENT) * INVERSE - j * TWO64;
    assert u * MULTIPLIER + INCREMENT == ((seed - INCREMENT) * QUOTIENT - j * MULTIPLIER) * TWO64 + seed;
    ModIs(u * MULTIPLIER + INCREMENT, (seed - INCREMENT) * QUOTIENT - j * MULTIPLIER, seed);
  }

  // ---- every output has as many seeds ----

  /** The seeds of a stretch of scrambled words. */
  ghost function Preimage(lo: int, hi: int): set<int>
    requires 0 <= lo <= hi <= TWO64
    decreases hi - lo
  {
    if lo == hi then {} else Preimage(lo, hi - 1) + {Unscramble(hi - 1)}
  }

  lemma {:induction false} PreimageHas(lo: int, hi: int, seed: Word)
    requires 0 <= lo <= hi <= TWO64
    ensures seed in Preimage(lo, hi) <==> lo <= Scramble(seed) < hi
    decreases hi - lo
  {
    hide Scramble, Unscramble;
    if lo < hi {
      PreimageHas(lo, hi - 1, seed);
      ScrambleIsBijective(seed);
      ScrambleIsBijective(hi - 1);
    }
  }

  lemma {:induction false} PreimageSize(lo: int, hi: int)
    requires 0 <= lo <= hi <= TWO64
    ensures |Preimage(lo, hi)| == hi - lo
    decreases hi - lo
  {
    hide Scramble, Unscramble;
    if lo < hi {
      PreimageSize(lo, hi - 1);
      PreimageHas(lo, hi - 1, Unscramble(hi - 1));
      ScrambleIsBijective(hi - 1);
    }
  }

  ghost function SeedsOf(bits: nat): set<int> {
    set seed: int | 0 <= seed < TWO64 && Bits(seed) == bits
  }

  /** Each of the 2^31 outputs is reached from exactly 2^33 seeds. */
  lemma {:induction false} OutputsAreEven(bits: nat)
    requires bits < TWO31
    ensures |SeedsOf(bits)| == TWO33
  {
    hide Scramble, Unscramble, Preimage;
    var lo, hi := bits * TWO33, (bits + 1) * TWO33;
    PreimageSize(lo, hi);
    forall seed: int | 0 <= seed < TWO64 ensures seed in Preimage(lo, hi) <==> Bits(seed) == bits {
      PreimageHas(lo, hi, seed);
    }
    OnlyWords(lo, hi);
    assert SeedsOf(bits) == Preimage(lo, hi);
  }

  lemma {:induction false} OnlyWords(lo: int, hi: int)
    requires 0 <= lo <= hi <= TWO64
    ensures forall n: int :: n in Preimage(lo, hi) ==> 0 <= n < TWO64
    decreases hi - lo
  {
    if lo < hi { OnlyWords(lo, hi - 1); }
  }

  // ---- consecutive seeds ----

  /** The first fractions. */
  lemma {:induction false} FirstFractions()
    ensures Scramble(0) == 1442695040888963407 && Scramble(1) == 7806831264735756412
    ensures Bits(0) == 167951807 && Bits(1) == 908834774 && Bits(2) == 1649717740
    ensures Bits(42) == 1220265334 && Bits(12345) == 235318264
    ensures LcgFraction(1) == 908834774.0 / 2147483648.0
  {
  }

  function Next(seed: Word): Word { (seed + 1) % TWO64 }

  lemma {:induction false} NextScrambles(seed: Word)
    ensures || Scramble(Next(seed)) == Scramble(seed) + MULTIPLIER
            || Scramble(Next(seed)) == Scramble(seed) + MULTIPLIER - TWO64
  {
    var k := (seed * MULTIPLIER + INCREMENT) / TWO64;
    var wrap := if seed + 1 == TWO64 then 1 else 0;
    var w := Scramble(seed);
    assert Next(seed) == seed + 1 - wrap * TWO64;
    assert Next(seed) * MULTIPLIER + INCREMENT == (k - wrap * MULTIPLIER) * TWO64 + (w + MULTIPLIER);
    if w + MULTIPLIER < TWO64 {
      ModIs(Next(seed) * MULTIPLIER + INCREMENT, k - wrap * MULTIPLIER, w + MULTIPLIER);
    } else {
      ModIs(Next(seed) * MULTIPLIER + INCREMENT, k - wrap * MULTIPLIER + 1, w + MULTIPLIER - TWO64);
    }
  }

  /** A tick always moves the fraction by more than 0.34, also where the seed wraps. */
  lemma {:induction false} TicksSpread(seed: Word)
    ensures var a, b := LcgFraction(seed), LcgFraction(if seed == 0xFFFF_FFFF_FFFF_FFFF then 0 else seed + 1);
      a - b > 0.34 || b - a > 0.34
  {
    NextScrambles(seed);
    hide Scramble;
    var a: int, b: int := Bits(seed), Bits(Next(seed));
    assert b - a >= 740882966 || a - b >= 740882966;
    CapNeverActs(seed);
    CapNeverActs(Next(seed));
    var fa, fb := LcgFraction(seed), LcgFraction(Next(seed));
    assert 0.34 * TWO31 as real < 740882966.0;
    assert (fb - fa) * TWO31 as real == (b - a) as real;
  }
}
