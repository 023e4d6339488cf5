/** Integer division the way the constant folder does it: both operands become 32-bit floats, the floats
    are divided, and the quotient is cut off after the point. Floats round to the nearest 24-bit
    significand, ties to even (section 4.3.1 of IEEE 754-2019). The operands are 32-bit integers, so no
    exponent limit and no subnormal number comes into play. */
module FloatDivision {
  import opened Words

  const HALF := 0x80_0000      // 2^23
  const FULL := 0x100_0000     // 2^24

  /** A nonnegative float as an exact fraction. */
  datatype Fraction = Fraction(num: nat, den: nat)

  /** The integer nearest to n / d; of two equally near ones the even one. */
  function NearestEven(n: nat, d: nat): (m: nat)
    requires d > 0
  {
    var q, r := n / d, n % d;
    if 2 * r < d || (2 * r == d && q % 2 == 0) then q else q + 1
  }

  /** n / d rounded to 24 significant bits. */
  function Round(n: nat, d: nat): (f: Fraction)
    requires d > 0
    ensures f.den > 0 && (n > 0 ==> f.num > 0)
    decreases if n < HALF * d then 1 else 0, if n < HALF * d then HALF * d - n else n - HALF * d
  {
    if n == 0 then Fraction(0, 1)
    else if n >= FULL * d then var f := Round(n, 2 * d); Fraction(2 * f.num, f.den)
    else if n < HALF * d then var f := Round(2 * n, d); Fraction(f.num, 2 * f.den)
    else PositiveNearest(n, d); Fraction(NearestEven(n, d), 1)
  }

  lemma {:induction false} PositiveNearest(n: nat, d: nat)
    requires d > 0 && n >= HALF * d
    ensures NearestEven(n, d) > 0
  {
    AtLeast(n, d, HALF);
  }

  /** A float divided by another and truncated. */
  function Quotient32(a: nat, b: nat): nat
    requires b > 0
  {
    var x, y := Round(a, 1), Round(b, 1);
    var q := Round(x.num * y.den, x.den * y.num);
    q.num / q.den
  }

  /** static_cast<int>(static_cast<float>(a) / static_cast<float>(b)), where the cast is defined. */
  function FloatQuotient(a: int, b: int): int
    requires b != 0
  {
    var q: int := Quotient32(Abs(a), Abs(b));
    if (a < 0) == (b < 0) then q else -q
  }

  // ---------------------------------------------------------------- rounding

  lemma {:induction false} AtLeast(n: nat, d: nat, lo: int)
    requires d > 0 && lo * d <= n
    ensures NearestEven(n, d) >= lo
  {
    QuotientBounds(n, d, lo, 0);
  }

  /** Away from a half, the nearest integer stays below the next one. */
  lemma {:induction false} AtMost(n: nat, d: nat, hi: nat, p: int)
    requires d > 0 && p == hi * d && 2 * n < 2 * p + d
    ensures NearestEven(n, d) <= hi
  {
    var q, r := n / d, n % d;
    assert n == q * d + r;
    assert (hi + 1) * d == p + d;
    QuotientBounds(n, d, 0, hi + 1);
    if q == hi {
      assert n == p + r;
    }
  }

  /** The three cases of rounding. */
  lemma {:induction false} RoundStep(n: nat, d: nat)
    requires d > 0
    ensures n == 0 ==> Round(n, d) == Fraction(0, 1)
    ensures n >= FULL * d ==> Round(n, d) == Fraction(2 * Round(n, 2 * d).num, Round(n, 2 * d).den)
    ensures 0 < n < HALF * d ==> Round(n, d) == Fraction(Round(2 * n, d).num, 2 * Round(2 * n, d).den)
    ensures HALF * d <= n < FULL * d ==> Round(n, d) == Fraction(NearestEven(n, d), 1)
  {
  }

  /** Integers below 2^24 are floats. */
  lemma {:induction false} SmallIsExact(n: nat)
    requires n < FULL
    ensures Round(n, 1).num == n * Round(n, 1).den
    decreases FULL - n
  {
    hide Round;
    RoundStep(n, 1);
    if 0 < n < HALF {
      SmallIsExact(2 * n);
      assert 2 * n * Round(2 * n, 1).den == n * (2 * Round(2 * n, 1).den);
    }
  }

  /** No integer from 2^24 on is rounded below 2^24. */
  lemma {:induction false} LargeStaysLarge(n: nat, d: nat)
    requires d > 0 && n >= FULL * d
    ensures Round(n, d).num >= FULL * Round(n, d).den
    decreases n - HALF * d
  {
    hide Round, NearestEven;
    RoundStep(n, d);
    RoundStep(n, 2 * d);
    if n >= FULL * (2 * d) {
      LargeStaysLarge(n, 2 * d);
    } else {
      AtLeast(n, 2 * d, HALF);
    }
  }

  lemma {:induction false} Scaled(n: nat, d: nat, k: nat)
    requires d > 0 && k > 0
    ensures d * k > 0 && (n * k == 0 <==> n == 0)
    ensures n * k < HALF * (d * k) <==> n < HALF * d
    ensures n * k < FULL * (d * k) <==> n < FULL * d
    ensures 2 * n * k == 2 * (n * k) && 2 * d * k == 2 * (d * k)
  {
    MulLt(0, n, k);
    MulLt(0, d, k);
    MulLt(n, HALF * d, k);
    MulLt(n, FULL * d, k);
    assert HALF * d * k == HALF * (d * k) && FULL * d * k == FULL * (d * k);
  }

  /** Rounding depends on the value of a fraction only. */
  lemma {:induction false} RoundReduced(n: nat, d: nat, k: nat)
    requires d > 0 && k > 0
    ensures d * k > 0 && Round(n * k, d * k) == Round(n, d)
    decreases if n < HALF * d then 1 else 0, if n < HALF * d then HALF * d - n else n - HALF * d
  {
    hide Round, NearestEven;
    Scaled(n, d, k);
    var nk, dk := n * k, d * k;
    RoundStep(n, d);
    RoundStep(nk, dk);
    if n == 0 {
    } else if n >= FULL * d {
      RoundReduced(n, 2 * d, k);
    } else if n < HALF * d {
      RoundReduced(2 * n, d, k);
    } else {
      NearestReduced(n, d, k);
    }
  }

  lemma {:induction false} NearestFrom(n: nat, d: nat, q: nat, r: nat)
    requires r < d && n == q * d + r
    ensures NearestEven(n, d) == if 2 * r < d || (2 * r == d && q % 2 == 0) then q else q + 1
  {
    assert (q + 1) * d == q * d + d;
    QuotientIs(n, d, q);
  }

  lemma {:induction false} NearestReduced(n: nat, d: nat, k: nat)
    requires d > 0 && k > 0
    ensures d * k > 0 && NearestEven(n * k, d * k) == NearestEven(n, d)
  {
    hide NearestEven;
    var q, r := n / d, n % d;
    NearestFrom(n, d, q, r);
    MulLt(0, d, k);
    MulLt(r, d, k);
    Distributed(q, d, r, k);
    NearestFrom(n * k, d * k, q, r * k);
    MulLt(2 * r, d, k);
    MulLt(d, 2 * r, k);
  }

  lemma {:induction false} Distributed(q: nat, d: nat, r: nat, k: nat)
    ensures (q * d + r) * k == q * (d * k) + r * k
    ensures (q + 1) * (d * k) == q * (d * k) + d * k
    ensures 2 * r * k == 2 * (r * k)
  {
  }

  // ---------------------------------------------------------------- truncating a rounded quotient

  /** Rounding a / b never lifts it to the next integer while a is below 2^24: after s-fold scaling the gap
      to the next integer is still at least half a unit in the last place. */
  lemma {:induction false} RoundThenTruncate(a: nat, b: nat, s: nat)
    requires a < FULL && b > 0 && s > 0 && a * s < FULL * b
    ensures var f := Round(a * s, b); s * f.den > 0 && f.num / (s * f.den) == a / b
    decreases if a * s < HALF * b then HALF * b - a * s else 0
  {
    hide Round, NearestEven;
    var n := a * s;
    RoundStep(n, b);
    if a == 0 {
      assert n == 0;
    } else if n < HALF * b {
      MulLt(0, a, s);
      assert 2 * n == a * (2 * s);
      RoundThenTruncate(a, b, 2 * s);
      assert 2 * s * Round(2 * n, b).den == s * (2 * Round(2 * n, b).den);
    } else {
      NearestThenTruncate(a, b, s);
    }
  }

  lemma {:induction false} NearestThenTruncate(a: nat, b: nat, s: nat)
    requires a < FULL && b > 0 && s > 0 && HALF * b <= a * s
    ensures NearestEven(a * s, b) / s == a / b
  {
    hide NearestEven;
    var q, r := a / b, a % b;
    Parts(q, b, r, s);
    assert a * s == q * s * b + r * s;
    ScaledBounds(a, b, s, r);
    GapIsHalf(a * s, b, s, q * s * b, r * s, b * s);
    NearestBetween(a * s, b, q * s, q * s + s - 1, q * s * b, q * s * b + b * s - b);
    QuotientIs(NearestEven(a * s, b), s, q);
  }

  lemma {:induction false} ScaledBounds(a: nat, b: nat, s: nat, r: nat)
    requires a < FULL && s > 0 && r < b
    ensures a * s < FULL * s && 0 <= r * s <= b * s - s
  {
    MulLt(a, FULL, s);
    MulLe(r, b - 1, s);
    assert (b - 1) * s == b * s - s;
  }

  lemma {:induction false} GapIsHalf(n: int, b: int, s: int, whole: int, rest: int, unit: int)
    requires n == whole + rest && 0 <= rest <= unit - s && HALF * b <= n < FULL * s
    ensures whole <= n && 2 * n < 2 * (whole + unit - b) + b
  {
  }

  lemma {:induction false} NearestBetween(n: nat, d: nat, lo: int, hi: nat, pl: int, ph: int)
    requires d > 0 && pl == lo * d && ph == hi * d && pl <= n && 2 * n < 2 * ph + d
    ensures lo <= NearestEven(n, d) <= hi
  {
    hide NearestEven;
    AtLeast(n, d, lo);
    AtMost(n, d, hi, ph);
  }

  lemma {:induction false} Parts(q: nat, b: nat, r: nat, s: nat)
    ensures (q * b + r) * s == q * s * b + r * s
    ensures (q * s + s - 1) * b == q * s * b + b * s - b
    ensures (q + 1) * s == q * s + s
  {
  }

  /** A quotient at most 1 - 2^-24 does not round up to one. */
  lemma {:induction false} RoundsBelowOne(n: nat, d: nat, s: nat)
    requires d > 0 && s > 0 && n * FULL <= (FULL - 1) * (d * s) && n < FULL * d
    ensures Round(n, d).num < s * Round(n, d).den
    decreases if n < HALF * d then HALF * d - n else 0
  {
    hide Round, NearestEven;
    RoundStep(n, d);
    if n == 0 {
    } else if n < HALF * d {
      assert d * (2 * s) == 2 * (d * s);
      RoundsBelowOne(2 * n, d, 2 * s);
      assert 2 * s * Round(2 * n, d).den == s * (2 * Round(2 * n, d).den);
    } else {
      NearestBelow(n, d, s);
    }
  }

  lemma {:induction false} NearestBelow(n: nat, d: nat, s: nat)
    requires d > 0 && s > 0 && n * FULL <= (FULL - 1) * (d * s) && HALF * d <= n
    ensures NearestEven(n, d) < s
  {
    hide NearestEven;
    var ds := d * s;
    MulLt(FULL, 2 * s, d);
    assert 2 * s * d == 2 * ds && (s - 1) * d == ds - d;
    AtMost(n, d, s - 1, ds - d);
  }

  /** A dividend below 2^24 is divided exactly as integers are, whatever the divisor. */
  lemma {:induction false} QuotientAgrees(a: nat, b: nat)
    requires a < FULL && b > 0
    ensures Quotient32(a, b) == a / b
  {
    hide Round;
    var x, y := Round(a, 1), Round(b, 1);
    SmallIsExact(a);
    if b < FULL {
      SmallIsExact(b);
      SmallDivisor(a, b, x.den, y.den);
    } else {
      LargeStaysLarge(b, 1);
      LargeDivisor(a, x.den, y.num, y.den);
      QuotientIs(a, b, 0);
    }
  }

  lemma {:induction false} SmallDivisor(a: nat, b: nat, xd: nat, yd: nat)
    requires a < FULL && b > 0 && xd > 0 && yd > 0
    ensures xd * (b * yd) > 0
    ensures var q := Round(a * xd * yd, xd * (b * yd)); q.num / q.den == a / b
  {
    hide Round;
    var k := xd * yd;
    MulLt(0, xd, yd);
    assert a * xd * yd == a * k && xd * (b * yd) == b * k;
    RoundReduced(a, b, k);
    RoundThenTruncate(a, b, 1);
  }

  lemma {:induction false} LargeDivisor(a: nat, xd: nat, yn: nat, yd: nat)
    requires a < FULL && xd > 0 && yd > 0 && yn >= FULL * yd
    ensures xd * yn > 0
    ensures var q := Round(a * xd * yd, xd * yn); q.num / q.den == 0
  {
    hide Round;
    var u, d := xd * yd, xd * yn;
    MulLt(0, xd, yd);
    MulLe(FULL * yd, yn, xd);
    assert FULL * yd * xd == FULL * u && yn * xd == d;
    var n := a * u;
    assert a * xd * yd == n;
    MulLe(a, FULL - 1, u);
    assert d * 1 == d;
    RoundsBelowOne(n, d, 1);
    QuotientIs(Round(n, d).num, Round(n, d).den, 0);
  }

  /** The folder's quotient is the machine's whenever the dividend is below 2^24 in magnitude. */
  lemma {:induction false} FloatQuotientAgrees(a: int, b: int)
    requires Abs(a) < FULL && b != 0
    ensures FloatQuotient(a, b) == TruncDiv(a, b)
  {
    hide Quotient32;
    QuotientAgrees(Abs(a), Abs(b));
  }

  /** The first dividend that is not a float is already wrong: (2^24 + 1) // 1 folds to 2^24. */
  lemma {:induction false} FirstWrongQuotient()
    ensures FloatQuotient(FULL + 1, 1) == FULL && TruncDiv(FULL + 1, 1) == FULL + 1
  {
    hide Round;
    RoundStep(FULL + 1, 1);
    RoundStep(FULL + 1, 2);
    assert Round(FULL + 1, 1) == Fraction(FULL, 1);
    SmallIsExact(1);
    var k := Round(1, 1).den;
    RoundReduced(FULL, 1, k);
    RoundStep(FULL, 1);
    RoundStep(FULL, 2);
  }

  // ---------------------------------------------------------------- dividends that are not floats

  /** How often the unit of the last place of a float of this size doubles. */
  function Exponent(n: nat, d: nat): (j: nat)
    requires d > 0
    decreases n - HALF * d
  {
    if n < FULL * d then 0 else 1 + Exponent(n, 2 * d)
  }

  lemma {:induction false} RoundLarge(n: nat, d: nat)
    requires d > 0 && n >= HALF * d
    ensures var p := Pow2(Exponent(n, d));
      && d * p > 0 && Round(n, d) == Fraction(NearestEven(n, d * p) * p, 1)
      && HALF <= NearestEven(n, d * p) <= FULL
    decreases n - HALF * d
  {
    hide Round, NearestEven;
    RoundStep(n, d);
    if n < FULL * d {
      assert d * 1 == d;
      AtLeast(n, d, HALF);
      AtMost(n, d, FULL, FULL * d);
    } else {
      RoundLarge(n, 2 * d);
      var p := Pow2(Exponent(n, 2 * d));
      assert Pow2(Exponent(n, d)) == 2 * p && 2 * d * p == d * (2 * p);
      var m := NearestEven(n, d * (2 * p));
      assert 2 * (m * p) == m * (2 * p);
    }
  }

  /** Below 2^24 the number is scaled up until it has 24 bits in front of the point. */
  lemma {:induction false} RoundSmall(n: nat, d: nat) returns (k: nat)
    requires d > 0 && 0 < n < FULL * d
    ensures HALF * d <= n * Pow2(k) < FULL * d
    ensures n * Pow2(k) >= 0 && Round(n, d) == Fraction(NearestEven(n * Pow2(k), d), Pow2(k))
    decreases if n < HALF * d then HALF * d - n else 0
  {
    hide Round, NearestEven;
    RoundStep(n, d);
    if n < HALF * d {
      k := RoundSmall(2 * n, d);
      assert 2 * n * Pow2(k) == n * (2 * Pow2(k)) == n * Pow2(k + 1);
      k := k + 1;
    } else {
      k := 0;
      assert n * Pow2(0) == n;
    }
  }

  /** The integer chosen is at most half a unit away; at exactly half a unit it is even. */
  lemma {:induction false} NearestExact(n: nat, d: nat)
    requires d > 0
    ensures var off := 2 * (NearestEven(n, d) * d - n);
      0 <= off + d && off <= d && (off == d || off + d == 0 ==> NearestEven(n, d) % 2 == 0)
  {
    var q, r := n / d, n % d;
    assert n == q * d + r;
    assert (q + 1) * d == q * d + d;
  }

  /** A number of at most 24 significant bits is a float. */
  lemma {:induction false} MultipleIsExact(m: nat, j: nat, d: nat)
    requires d > 0 && HALF <= m <= FULL
    ensures Round(m * Pow2(j) * d, d) == Fraction(m * Pow2(j), 1)
    decreases j
  {
    hide Round, NearestEven;
    var p := Pow2(j);
    var n := m * p * d;
    RoundStep(n, d);
    RoundStep(n, 2 * d);
    if j == 0 {
      assert n == m * d;
      NearestFrom(n, d, m, 0);
      if m == FULL {
        NearestFrom(n, 2 * d, HALF, 0);
      } else {
        MulLe(HALF, m, d);
        MulLe(m + 1, FULL, d);
        assert (m + 1) * d == m * d + d;
      }
    } else {
      var q := Pow2(j - 1);
      assert p == 2 * q;
      assert n == m * q * (2 * d);
      assert n == 2 * (m * q) * d && m * p == 2 * (m * q);
      MulLe(HALF, m, q);
      assert m * q >= HALF;
      MulLe(FULL, 2 * (m * q), d);
      MultipleIsExact(m, j - 1, 2 * d);
    }
  }

  /** Dividing by one rounds to the unit of the last place. */
  lemma {:induction false} DivideByOne(a: nat)
    ensures var p := Pow2(Exponent(a, 1)); Quotient32(a, 1) == NearestEven(a, p) * p
  {
    hide Round, NearestEven;
    var j := Exponent(a, 1);
    var p := Pow2(j);
    if a < FULL {
      QuotientAgrees(a, 1);
      NearestFrom(a, 1, a, 0);
    } else {
      RoundLarge(a, 1);
      var m := NearestEven(a, p);
      assert 1 * p == p;
      SmallIsExact(1);
      var k := Round(1, 1).den;
      RoundReduced(m * p, 1, k);
      MultipleIsExact(m, j, 1);
      assert m * p * 1 == m * p && 1 * k == k;
    }
  }

  lemma {:induction false} NearestMultiple(a: nat, p: nat, q: nat, r: nat)
    requires r < p && a == q * p + r
    ensures NearestEven(a, p) * p == a <==> r == 0
  {
    hide NearestEven;
    NearestFrom(a, p, q, r);
    assert (q + 1) * p == q * p + p;
  }

  /** And it gives the dividend back exactly when that has no bit below this unit. */
  lemma {:induction false} DivideByOneExact(a: nat)
    ensures Quotient32(a, 1) == a <==> a % Pow2(Exponent(a, 1)) == 0
  {
    hide NearestEven, Exponent, Pow2, Quotient32;
    var p := Pow2(Exponent(a, 1));
    DivideByOne(a);
    NearestMultiple(a, p, a / p, a % p);
  }
}
