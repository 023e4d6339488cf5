/** Machine words: the 32-bit and 64-bit arithmetic shared by the source language and the VM.

    A 32-bit word is an int in [0, W32). `Signed` and `ToWord` are the two directions of the
    two's-complement reading the VM performs in TypeConversions. Bitwise operations are defined
    by recursion over the binary digits, so no bit-vector conversions appear in any proof. */
module Words {
  const W32: int := 0x1_0000_0000
  const W64: int := 0x1_0000_0000_0000_0000
  const MAX_ADDR: int := 0xFFFF_FFFF

  type Byte = b: int | 0 <= b < 256

  predicate IsWord(w: int) {
    0 <= w < W32
  }

  /** The signed reading of a 32-bit word. */
  function Signed(w: int): int {
    if w < 0x8000_0000 then w else w - W32
  }

  /** The word that represents an integer, wrapping modulo 2^32. */
  function ToWord(i: int): int {
    i % W32
  }

  lemma {:induction false} SignedRoundTrip(w: int)
    requires IsWord(w)
    ensures -0x8000_0000 <= Signed(w) < 0x8000_0000
    ensures ToWord(Signed(w)) == w
  {
  }

  lemma {:induction false} WordRoundTrip(i: int)
    requires -0x8000_0000 <= i < 0x8000_0000
    ensures IsWord(ToWord(i)) && Signed(ToWord(i)) == i
  {
  }

  /** C++ integer division and remainder: both truncate toward zero. */
  function TruncDiv(a: int, b: int): int
    requires b != 0
  {
    if (a < 0) == (b < 0) then Abs(a) / Abs(b) else -(Abs(a) / Abs(b))
  }

  function TruncMod(a: int, b: int): int
    requires b != 0
  {
    if a < 0 then -(Abs(a) % Abs(b)) else Abs(a) % Abs(b)
  }

  function Abs(a: int): nat {
    if a < 0 then -a else a
  }

  function Max(a: int, b: int): int {
    if a < b then b else a
  }

  function Pow2(n: nat): (p: int)
    ensures p > 0
  {
    if n == 0 then 1 else 2 * Pow2(n - 1)
  }

  /** Logical right shift by a power of two. */
  function Quotient(a: nat, p: int): (q: nat)
    requires p > 0
  {
    a / p
  }

  datatype BitOp = And | Or | Xor

  function Bit(op: BitOp, x: int, y: int): (r: int)
    ensures 0 <= r <= 1
  {
    match op
    case And => if x == 1 && y == 1 then 1 else 0
    case Or => if x == 1 || y == 1 then 1 else 0
    case Xor => if x != y then 1 else 0
  }

  /** The bitwise operation on the binary digits of two naturals. */
  function Bits(op: BitOp, a: nat, b: nat): (r: nat)
    decreases a + b
  {
    if a == 0 && b == 0 then 0
    else 2 * Bits(op, a / 2, b / 2) + Bit(op, a % 2, b % 2)
  }

  lemma {:induction false} BitsBounded(op: BitOp, a: nat, b: nat, n: nat)
    requires a < Pow2(n) && b < Pow2(n)
    ensures Bits(op, a, b) < Pow2(n)
    decreases n
  {
    if a != 0 || b != 0 {
      BitsBounded(op, a / 2, b / 2, n - 1);
    }
  }

  /** The low n digits of a bitwise result depend only on the low n digits of the operands. */
  lemma {:induction false} BitsLow(op: BitOp, a: nat, b: nat, n: nat)
    ensures Bits(op, a % Pow2(n), b % Pow2(n)) == Bits(op, a, b) % Pow2(n)
    decreases n
  {
    if n == 0 {
      assert a % 1 == 0 && b % 1 == 0;
    } else {
      hide Bits, Bit;
      var p := Pow2(n - 1);
      BitsLow(op, a / 2, b / 2, n - 1);
      HalveMod(a, p);
      HalveMod(b, p);
      HalveMod(Bits(op, a, b), p);
      BitsStep(op, a, b);
      BitsStep(op, a % (2 * p), b % (2 * p));
    }
  }

  lemma {:induction false} BitsStep(op: BitOp, a: nat, b: nat)
    ensures Bits(op, a, b) == 2 * Bits(op, a / 2, b / 2) + Bit(op, a % 2, b % 2)
    ensures Bits(op, a, b) / 2 == Bits(op, a / 2, b / 2) && Bits(op, a, b) % 2 == Bit(op, a % 2, b % 2)
  {
  }

  lemma {:induction false} HalveMod(a: nat, p: int)
    requires p > 0
    ensures a % (2 * p) / 2 == a / 2 % p
    ensures a % (2 * p) % 2 == a % 2
    ensures a % (2 * p) == 2 * (a / 2 % p) + a % 2
  {
    var q := a / 2 / p;
    var r := a / 2 % p;
    assert a == 2 * (q * p + r) + a % 2;
    assert a == q * (2 * p) + (2 * r + a % 2);
    ModUnique(a, 2 * p, q, 2 * r + a % 2);
  }

  lemma {:induction false} ModUnique(a: int, m: int, q: int, r: int)
    requires m > 0 && a == q * m + r && 0 <= r < m
    ensures a % m == r && a / m == q
  {
    var k := q - a / m;
    assert k * m == a % m - r;
    MulGrows(k, m);
  }

  lemma {:induction false} MulGrows(k: int, m: int)
    requires m > 0
    ensures k >= 1 ==> k * m >= m
    ensures k <= -1 ==> k * m <= -m
  {
  }

  lemma {:induction false} AndAtMost(a: nat, b: nat)
    ensures Bits(And, a, b) <= a && Bits(And, a, b) <= b
    decreases a + b
  {
    if a != 0 || b != 0 {
      AndAtMost(a / 2, b / 2);
    }
  }

  lemma {:induction false} Pow2Is32()
    ensures Pow2(32) == W32 && Pow2(64) == W64
  {
    assert Pow2(8) == 256;
    assert Pow2(16) == 0x1_0000;
    assert Pow2(24) == 0x100_0000;
    assert Pow2(32) == W32;
    assert Pow2(40) == 0x100_0000_0000;
    assert Pow2(48) == 0x1_0000_0000_0000;
    assert Pow2(56) == 0x100_0000_0000_0000;
  }

  lemma {:induction false} MulMod(a: int, p: int)
    ensures a * p % W32 == (a % W32) * p % W32
  {
    var q := a / W32;
    assert a * p == (q * p) * W32 + (a % W32) * p;
    ShiftMod((a % W32) * p, q * p);
  }

  lemma {:induction false} ShiftMod(x: int, k: int)
    ensures (k * W32 + x) % W32 == x % W32
  {
  }

  lemma {:induction false} Mod64Then32(x: int)
    ensures x % W64 % W32 == x % W32
  {
  }

  lemma {:induction false} LowByteFirst(v: int, p: int)
    requires p > 0
    ensures v % (256 * p) == v % 256 + 256 * (v / 256 % p)
  {
    var q, r := v / 256 / p, v / 256 % p;
    assert v / 256 == q * p + r;
    assert q * (256 * p) == 256 * (q * p);
    ModUnique(v, 256 * p, q, v % 256 + 256 * r);
  }

  lemma {:induction false} DivideTwice(v: int, p: int)
    requires p > 0
    ensures v / (256 * p) == v / 256 / p
  {
    var q, r := v / 256 / p, v / 256 % p;
    assert v / 256 == q * p + r;
    assert q * (256 * p) == 256 * (q * p);
    ModUnique(v, 256 * p, q, v % 256 + 256 * r);
  }

  lemma {:induction false} MulLe(x: int, y: int, k: nat)
    requires x <= y
    ensures x * k <= y * k
  {
    assert (y - x) * k >= 0;
  }

  lemma {:induction false} MulLt(x: int, y: int, k: nat)
    requires k > 0
    ensures x < y <==> x * k < y * k
  {
    if x < y {
      MulLe(x + 1, y, k);
    } else {
      MulLe(y, x, k);
    }
  }

  /** Dividing is finding the multiple just below. */
  lemma {:induction false} QuotientBounds(n: nat, d: nat, lo: int, hi: int)
    requires d > 0
    ensures lo * d <= n ==> lo <= n / d
    ensures n < hi * d ==> n / d < hi
  {
    var q, r := n / d, n % d;
    assert n == q * d + r;
    MulLt(q + 1, lo, d);
    MulLt(q, lo - 1, d);
    MulLt(q, hi, d);
  }

  lemma {:induction false} QuotientIs(n: nat, d: nat, q: nat)
    requires d > 0 && q * d <= n < (q + 1) * d
    ensures n / d == q && n % d == n - q * d
  {
    QuotientBounds(n, d, q, q + 1);
    assert n == n / d * d + n % d;
  }

  lemma {:induction false} QuotientSmaller(a: nat, b: nat)
    requires b > 0
    ensures 0 <= a / b <= a
  {
    QuotientBounds(a, b, 0, a + 1);
    MulLe(1, b, a + 1);
  }
}
