/** What the arithmetic of the model means, said in numbers: bitwise operators digit by digit, division by quotient and
    remainder, and the machine's operators and conversions on every pair of types without floats or 64-bit integers. */
module OperatorLaws {
  import opened Words
  import opened Isa
  import opened Arithmetic

  // ---------------------------------------------------------------- binary digits

  /** Digit k of a natural number. */
  function Digit(a: nat, k: nat): int {
    a / Pow2(k) % 2
  }

  /** Digit k of the result has one of the four values of the truth table. */
  lemma {:induction false} BitwiseDigits(a: nat, b: nat, k: nat)
    ensures Digit(Bits(And, a, b), k) == 1 <==> Digit(a, k) == 1 && Digit(b, k) == 1
    ensures Digit(Bits(Or, a, b), k) == 1 <==> Digit(a, k) == 1 || Digit(b, k) == 1
    ensures Digit(Bits(Xor, a, b), k) == 1 <==> Digit(a, k) != Digit(b, k)
    decreases k
  {
    hide Bits;
    BitsStep(And, a, b);
    BitsStep(Or, a, b);
    BitsStep(Xor, a, b);
    if k > 0 {
      BitwiseDigits(a / 2, b / 2, k - 1);
      DigitOfHalf(a, k);
      DigitOfHalf(b, k);
      DigitOfHalf(Bits(And, a, b), k);
      DigitOfHalf(Bits(Or, a, b), k);
      DigitOfHalf(Bits(Xor, a, b), k);
    }
  }

  lemma {:induction false} DigitOfHalf(a: nat, k: nat)
    requires k > 0
    ensures Digit(a, k) == Digit(a / 2, k - 1)
  {
    var p := Pow2(k - 1);
    var q, r := a / 2 / p, a / 2 % p;
    assert a / 2 == q * p + r;
    assert a == 2 * (q * p + r) + a % 2;
    assert q * (2 * p) == 2 * (q * p);
    ModUnique(a, 2 * p, q, 2 * r + a % 2);
  }

  /** Together and and or hold the digits of both numbers, and xor those in which they differ. */
  lemma {:induction false} BitwiseSums(a: nat, b: nat)
    ensures Bits(And, a, b) + Bits(Or, a, b) == a + b
    ensures Bits(And, a, b) + Bits(Xor, a, b) == Bits(Or, a, b)
    decreases a + b
  {
    if a != 0 || b != 0 {
      BitwiseSums(a / 2, b / 2);
    }
  }

  /** The complement of all digits, as the machine's not computes it, is the number of opposite digits. */
  lemma {:induction false} ComplementDigits(a: nat, k: nat)
    requires a < W64 && k < 64
    ensures Digit(W64 - 1 - a, k) != Digit(a, k)
  {
    Pow2Is32();
    ComplementAt(a, 64, k);
  }

  lemma {:induction false} ComplementAt(a: nat, n: nat, k: nat)
    requires a < Pow2(n) && k < n
    ensures Digit(Pow2(n) - 1 - a, k) != Digit(a, k)
    decreases k
  {
    var c := Pow2(n) - 1 - a;
    assert Pow2(n) == 2 * Pow2(n - 1);
    assert c % 2 == 1 - a % 2 && c / 2 == Pow2(n - 1) - 1 - a / 2;
    if k > 0 {
      ComplementAt(a / 2, n - 1, k - 1);
      DigitOfHalf(a, k);
      DigitOfHalf(c, k);
    } else {
      assert Pow2(0) == 1;
    }
  }

  // ---------------------------------------------------------------- quotients

  function Size(x: int): int {
    if x < 0 then -x else x
  }

  lemma {:induction false} AbsIsSize(x: int)
    ensures Abs(x) == Size(x)
  {
  }

  lemma {:induction false} SignsOut(n: int, q: int, b: int)
    requires n == Size(b)
    ensures b * q == if b < 0 then -(n * q) else n * q
    ensures n * -q == -(n * q)
  {
  }

  /** Quotient and remainder belong together; the remainder is smaller than the divisor and has no other sign than
      the dividend, so the quotient is truncated towards zero. */
  lemma {:induction false} TruncatedDivision(a: int, b: int)
    requires b != 0
    ensures a == b * TruncDiv(a, b) + TruncMod(a, b)
    ensures Abs(TruncMod(a, b)) < Abs(b)
    ensures TruncMod(a, b) == 0 || (TruncMod(a, b) < 0 <==> a < 0)
  {
    hide Abs, TruncDiv, TruncMod;
    var q, r := TruncParts(a, b);
    SignsOut(Size(b), q, b);
    SignsOut(Size(b), -q, b);
    AbsIsSize(b);
    AbsIsSize(TruncMod(a, b));
  }

  /** Quotient and remainder of the magnitudes, with their signs. */
  lemma {:induction false} TruncParts(a: int, b: int) returns (q: int, r: int)
    requires b != 0
    ensures Size(a) == Size(b) * q + r && 0 <= r < Size(b)
    ensures TruncDiv(a, b) == if (a < 0) == (b < 0) then q else -q
    ensures TruncMod(a, b) == if a < 0 then -r else r
  {
    AbsIsSize(a);
    AbsIsSize(b);
    q, r := Size(a) / Size(b), Size(a) % Size(b);
  }

  /** There is only one such pair. */
  lemma {:induction false} TruncatedUnique(a: int, b: int, q: int, r: int)
    requires b != 0 && a == b * q + r && Abs(r) < Abs(b) && (r == 0 || (r < 0 <==> a < 0))
    ensures q == TruncDiv(a, b) && r == TruncMod(a, b)
  {
    TruncatedDivision(a, b);
    hide TruncDiv, TruncMod, Abs;
    var q1, r1 := TruncDiv(a, b), TruncMod(a, b);
    AbsIsSize(b);
    AbsIsSize(r);
    AbsIsSize(r1);
    SameProduct(b, q, r, q1, r1);
    SmallMultiple(b, q - q1, r1 - r);
  }

  lemma {:induction false} SameProduct(b: int, q: int, r: int, q1: int, r1: int)
    requires b * q + r == b * q1 + r1
    ensures b * (q - q1) == r1 - r
  {
  }

  lemma {:induction false} SmallMultiple(b: int, k: int, e: int)
    requires b * k == e && -Size(b) < e < Size(b)
    ensures k == 0
  {
    SignsOut(Size(b), k, b);
    assert Size(b) * k == k * Size(b);
    MulGrows(k, Size(b));
  }

  // ---------------------------------------------------------------- the machine's operators

  /** 32-bit operands as the VM has them: a type of four bytes that is no float, and a clean word. */
  predicate Narrow(v: Value) {
    v.ty in {I32, UI32, PTR} && v.raw < W32
  }

  /** A value of a type whose number is x, up to multiples of 2^32. */
  predicate Stands(r: Outcome<Value>, ty: Ty, x: int) {
    r.Ok? && r.value.ty == ty && r.value.raw < W32 && Typed(r.value) % W32 == x % W32
  }

  /** Which types add: two of a kind, or a pointer and an integer on either side. */
  predicate Adds(a: Ty, b: Ty) {
    (a == b && a != PTR) || (a == PTR && b != PTR) || (a != PTR && b == PTR)
  }

  lemma {:induction false} AddExact(a: Value, b: Value)
    requires Narrow(a) && Narrow(b)
    ensures var r := Apply(ADD, a, b);
      if Adds(a.ty, b.ty) then Stands(r, if a.ty == PTR || b.ty == PTR then PTR else a.ty, Typed(a) + Typed(b))
      else r == Outcome.Err(Internal)
    ensures Apply(ADD, a, b) == Apply(ADD, b, a)
  {
    hide Sub, Mul, Div, Mod, Bitwise, ShiftLeft, ShiftRight, Compare;
    Congruent(Typed(a) + Typed(b));
  }

  /** A word read at either sign is the same modulo 2^32. */
  lemma {:induction false} Congruent(i: int)
    ensures IsWord(ToWord(i)) && Signed(ToWord(i)) % W32 == i % W32 && ToWord(i) % W32 == i % W32
  {
  }

  /** The difference of two pointers is exact and has 64 bits. */
  lemma {:induction false} PointerDifference(a: Value, b: Value)
    requires Narrow(a) && Narrow(b) && a.ty == PTR && b.ty == PTR
    ensures var r := Apply(SUB, a, b);
      r.Ok? && r.value.ty == I64 && r.value.raw < W64 && Typed(r.value) == Typed(a) - Typed(b)
  {
    hide Add, Mul, Div, Mod, Bitwise, ShiftLeft, ShiftRight, Compare, Signed64;
    assert Low(a) == a.raw && Low(b) == b.raw;
    BackFrom64(a.raw - b.raw);
    Twice64(a.raw - b.raw);
  }

  lemma {:induction false} Twice64(x: int)
    ensures Signed64(x % W64) == Signed64(x)
  {
  }

  lemma {:induction false} SubExact(a: Value, b: Value)
    requires Narrow(a) && Narrow(b) && !(a.ty == PTR && b.ty == PTR)
    ensures var r := Apply(SUB, a, b);
      if a.ty == b.ty || a.ty == PTR then Stands(r, a.ty, Typed(a) - Typed(b)) else r == Outcome.Err(Internal)
  {
    hide Add, Mul, Div, Mod, Bitwise, ShiftLeft, ShiftRight, Compare, Signed64;
    Congruent(Typed(a) - Typed(b));
  }

  lemma {:induction false} MulExact(a: Value, b: Value)
    requires Narrow(a) && Narrow(b)
    ensures var r := Apply(MUL, a, b);
      if a.ty == b.ty && a.ty != PTR then Stands(r, a.ty, Typed(a) * Typed(b)) else r == Outcome.Err(Internal)
  {
    hide Add, Sub, Div, Mod, Bitwise, ShiftLeft, ShiftRight, Compare;
    Congruent(Typed(a) * Typed(b));
  }

  /** Quotients and remainders of two ints or two unsigned ints, where the divisor is not zero and the quotient fits,
      are those of the numbers. */
  lemma {:induction false} DivModExact(a: Value, b: Value)
    requires Narrow(a) && Narrow(b) && a.ty == b.ty && a.ty != PTR && b.raw != 0
    requires !(a.ty == I32 && Typed(a) == -0x8000_0000 && Typed(b) == -1)
    ensures var q, r := Apply(DIV, a, b), Apply(MOD, a, b);
      && q.Ok? && r.Ok? && q.value.ty == a.ty && r.value.ty == a.ty
      && Typed(a) == Typed(b) * Typed(q.value) + Typed(r.value)
      && Abs(Typed(r.value)) < Abs(Typed(b))
      && (Typed(r.value) == 0 || (Typed(r.value) < 0 <==> Typed(a) < 0))
  {
    hide Apply, Typed, Abs;
    if a.ty == I32 {
      IntDivMod(a, b);
    } else {
      UnsignedDivMod(a, b);
    }
  }

  lemma {:induction false} UnsignedDivMod(a: Value, b: Value)
    requires Narrow(a) && Narrow(b) && a.ty == UI32 && b.ty == UI32 && b.raw != 0
    ensures var q, r := Apply(DIV, a, b), Apply(MOD, a, b);
      && q.Ok? && r.Ok? && q.value.ty == UI32 && r.value.ty == UI32
      && Typed(a) == Typed(b) * Typed(q.value) + Typed(r.value)
      && Abs(Typed(r.value)) < Abs(Typed(b)) && Typed(r.value) >= 0 && Typed(a) >= 0
  {
    hide Add, Sub, Mul, Bitwise, ShiftLeft, ShiftRight, Compare;
    var x, y := a.raw, b.raw;
    var q, r := x / y, x % y;
    assert x == y * q + r;
    QuotientSmaller(x, y);
    assert Low(a) == x && Low(b) == y;
    assert Apply(DIV, a, b) == Outcome.Ok(Value(UI32, q)) && Apply(MOD, a, b) == Outcome.Ok(Value(UI32, r));
    assert Typed(Value(UI32, q)) == q && Typed(Value(UI32, r)) == r;
  }

  lemma {:induction false} IntDivMod(a: Value, b: Value)
    requires Narrow(a) && Narrow(b) && a.ty == I32 && b.ty == I32 && b.raw != 0
    requires !(Typed(a) == -0x8000_0000 && Typed(b) == -1)
    ensures var q, r := Apply(DIV, a, b), Apply(MOD, a, b);
      && q.Ok? && r.Ok? && q.value.ty == I32 && r.value.ty == I32
      && Typed(a) == Typed(b) * Typed(q.value) + Typed(r.value)
      && Abs(Typed(r.value)) < Abs(Typed(b))
      && (Typed(r.value) == 0 || (Typed(r.value) < 0 <==> Typed(a) < 0))
  {
    hide Add, Sub, Mul, Bitwise, ShiftLeft, ShiftRight, Compare, TruncDiv, TruncMod, ToWord, Signed, Abs;
    SignedOperands(a.raw, b.raw);
    assert Low(a) == a.raw && Low(b) == b.raw;
    SignedDivMod(Signed(a.raw), Signed(b.raw));
  }

  lemma {:induction false} SignedOperands(a: int, b: int)
    requires IsWord(a) && IsWord(b)
    ensures -0x8000_0000 <= Signed(a) < 0x8000_0000 && (Signed(b) == 0 <==> b == 0)
  {
  }

  lemma {:induction false} SignedDivMod(x: int, y: int)
    requires y != 0 && -0x8000_0000 <= x < 0x8000_0000 && !(x == -0x8000_0000 && y == -1)
    ensures x == y * TruncDiv(x, y) + TruncMod(x, y) && Abs(TruncMod(x, y)) < Abs(y)
    ensures TruncMod(x, y) == 0 || (TruncMod(x, y) < 0 <==> x < 0)
    ensures Signed(ToWord(TruncDiv(x, y))) == TruncDiv(x, y) && IsWord(ToWord(TruncDiv(x, y)))
    ensures Signed(ToWord(TruncMod(x, y))) == TruncMod(x, y) && IsWord(ToWord(TruncMod(x, y)))
  {
    hide ToWord, Signed;
    TruncatedDivision(x, y);
    SmallQuotient(x, y);
    RemainderBelow(x, y);
    WordRoundTrip(TruncDiv(x, y));
    WordRoundTrip(TruncMod(x, y));
  }

  lemma {:induction false} RemainderBelow(x: int, y: int)
    requires y != 0
    ensures -Size(x) <= TruncMod(x, y) <= Size(x) && (x >= 0 ==> TruncMod(x, y) >= 0) && (x < 0 ==> TruncMod(x, y) <= 0)
  {
    var q, r := Abs(x) / Abs(y), Abs(x) % Abs(y);
    assert Abs(x) == q * Abs(y) + r;
    QuotientBounds(Abs(x), Abs(y), 0, Abs(x) + 1);
    MulLe(0, q, Abs(y));
  }

  lemma {:induction false} SmallQuotient(x: int, y: int)
    requires y != 0 && -0x8000_0000 <= x < 0x8000_0000 && !(x == -0x8000_0000 && y == -1)
    ensures -0x8000_0000 <= TruncDiv(x, y) < 0x8000_0000
  {
    QuotientSmaller(Abs(x), Abs(y));
    if x == -0x8000_0000 && Abs(y) > 1 {
      QuotientBounds(Abs(x), Abs(y), 0, 0x8000_0000);
      MulLe(2, Abs(y), 0x8000_0000);
    }
  }

  /** Orders and equality of two clean words of one type are those of their numbers. */
  lemma {:induction false} CompareExact(a: Value, b: Value)
    requires Narrow(a) && Narrow(b) && a.ty == b.ty
    ensures Apply(CEQ, a, b) == Outcome.Ok(Truth(Typed(a) == Typed(b)))
    ensures Apply(CNE, a, b) == Outcome.Ok(Truth(Typed(a) != Typed(b)))
    ensures Apply(CLT, a, b) == Outcome.Ok(Truth(Typed(a) < Typed(b)))
    ensures Apply(CLE, a, b) == Outcome.Ok(Truth(Typed(a) <= Typed(b)))
    ensures Apply(CGT, a, b) == Outcome.Ok(Truth(Typed(a) > Typed(b)))
    ensures Apply(CGE, a, b) == Outcome.Ok(Truth(Typed(a) >= Typed(b)))
  {
    hide Add, Sub, Mul, Div, Mod, Bitwise, ShiftLeft, ShiftRight;
  }

  /** No comparison, no bitwise operator, no product and no quotient mixes types. */
  lemma {:induction false} MixedRefused(op: ArithOp, a: Value, b: Value)
    requires a.ty != b.ty && op !in {ADD, SUB, SHL, SHR, SAR}
    ensures Apply(op, a, b) == Outcome.Err(Internal)
  {
  }

  // ---------------------------------------------------------------- shifts

  /** Shifts of clean narrow integers by a number of places, taken modulo 32: left multiplies, logic right divides
      the word, arithmetic right divides the number downwards. */
  lemma {:induction false} ShiftLeftExact(a: Value, b: Value)
    requires Narrow(a) && Narrow(b) && a.ty != PTR && b.ty != PTR
    ensures Stands(Apply(SHL, a, b), a.ty, Typed(a) * Pow2(b.raw % 32))
  {
    hide Pow2, Add, Sub, Mul, Div, Mod, Bitwise, Compare, ShiftRight, Signed, Typed;
    var p := Pow2(b.raw % 32);
    assert Low(a) == a.raw && Low(b) == b.raw;
    Mod64Then32(a.raw * p);
    ShiftedWord(a, p);
    var r := Value(a.ty, a.raw * p % W32);
    NumberOfWord(r);
    assert Apply(SHL, a, b) == Outcome.Ok(r);
  }

  lemma {:induction false} NumberOfWord(v: Value)
    requires Narrow(v)
    ensures Typed(v) % W32 == v.raw
  {
  }

  lemma {:induction false} ShiftedWord(v: Value, p: int)
    requires Narrow(v) && p > 0
    ensures v.raw * p >= 0 && Typed(v) * p % W32 == v.raw * p % W32 == v.raw * p % W32 % W32
  {
    hide Typed;
    NumberOfWord(v);
    MulMod(Typed(v), p);
    MulLe(0, v.raw, p);
  }

  lemma {:induction false} LogicShiftExact(a: Value, b: Value)
    requires Narrow(a) && Narrow(b) && a.ty != PTR && b.ty != PTR
    ensures Apply(SHR, a, b) == Outcome.Ok(Value(a.ty, Quotient(a.raw, Pow2(b.raw % 32))))
    ensures Quotient(a.raw, Pow2(b.raw % 32)) == a.raw / Pow2(b.raw % 32) <= a.raw
  {
    hide Pow2, Add, Sub, Mul, Div, Mod, Bitwise, Compare, ShiftLeft;
    assert Low(b) == b.raw;
    QuotientSmaller(a.raw, Pow2(b.raw % 32));
  }

  lemma {:induction false} ArithShiftExact(a: Value, b: Value)
    requires Narrow(a) && Narrow(b) && a.ty != PTR && b.ty != PTR
    ensures Stands(Apply(SAR, a, b), a.ty, Typed(a) / Pow2(b.raw % 32))
  {
    hide Pow2, Add, Sub, Mul, Div, Mod, Bitwise, Compare, Signed64, ShiftLeft, ToWord, Signed;
    hide Typed, Stands;
    var p := Pow2(b.raw % 32);
    assert Low(a) == a.raw && Low(b) == b.raw;
    if a.ty == I32 {
      SignedTyped(a);
      SignedStands(Signed(a.raw) / p);
    } else {
      UnsignedStands(a, p);
    }
  }

  lemma {:induction false} SignedTyped(a: Value)
    requires Narrow(a) && a.ty == I32
    ensures Typed(a) == Signed(a.raw)
  {
  }

  lemma {:induction false} SignedStands(x: int)
    ensures Stands(Outcome.Ok(Value(I32, ToWord(x))), I32, x)
  {
    hide ToWord, Signed;
    Congruent(x);
  }

  lemma {:induction false} UnsignedStands(a: Value, p: int)
    requires Narrow(a) && a.ty != PTR && a.ty != I32 && p > 0
    ensures Stands(Outcome.Ok(Value(a.ty, Signed64(a.raw) / p % W64)), a.ty, Typed(a) / p)
  {
    hide Signed64;
    SmallSigned64(a.raw);
    QuotientSmaller(a.raw, p);
    SmallMod(a.raw / p);
  }

  lemma {:induction false} SmallMod(x: int)
    requires 0 <= x < W32
    ensures x % W64 == x && x % W32 == x
  {
  }

  lemma {:induction false} SmallSigned64(raw: nat)
    requires raw < W32
    ensures Signed64(raw) == raw
  {
  }

  // ---------------------------------------------------------------- conversions

  /** A conversion between types without floats keeps the number, up to the width of the new type; only a number
      that is no address does not become a pointer. */
  lemma {:induction false} ConvertExact(v: Value, ty: Ty)
    requires v.raw < W64 && v.ty !in {F32, F64} && ty !in {F32, F64}
    ensures var r, x := ConvertTo(v, ty), Typed(v);
      if v.ty == ty then r == Outcome.Ok(v)
      else if ty == PTR && !(0 <= x < W32) then r == Outcome.Err(OutOfRange)
      else r.Ok? && r.value.ty == ty
           && (if ty in {I64, UI64} then r.value.raw < W64 && Typed(r.value) % W64 == x % W64
               else r.value.raw < W32 && Typed(r.value) % W32 == x % W32)
  {
    Congruent(Typed(v));
  }

  /** Floats do not become pointers nor pointers floats; other conversions of floats are not modelled. */
  lemma {:induction false} ConvertFloat(v: Value, ty: Ty)
    requires v.ty != ty && (v.ty in {F32, F64} || ty in {F32, F64})
    ensures ConvertTo(v, ty) == Outcome.Err(if v.ty == PTR || ty == PTR then Internal else Unmodelled)
  {
  }

  /** Widening and back, and changing the sign and back, give the operand again. */
  lemma {:induction false} ConvertBack(v: Value, ty: Ty)
    requires Narrow(v) && v.ty != PTR && ty in {I32, UI32, I64, UI64}
    ensures ConvertTo(v, ty).Ok? && ConvertTo(ConvertTo(v, ty).value, v.ty) == Outcome.Ok(v)
  {
    hide Signed64;
    assert Low(v) == v.raw;
    SignedRoundTrip(v.raw);
    if ty == I64 {
      BackFrom64(Typed(v));
    }
  }

  lemma {:induction false} BackFrom64(x: int)
    requires -W32 < x < W32
    ensures Signed64(x % W64) == x
  {
  }

  // ---------------------------------------------------------------- zero

  /** A branch is decided by the number of its condition; both zeros of a float count. */
  lemma {:induction false} ZeroExact(v: Value)
    requires v.raw < if IsWide(v.ty) then W64 else W32
    ensures !IsFloat(v.ty) ==> (IsZero(v) <==> Typed(v) == 0)
    ensures v.ty == F32 ==> (IsZero(v) <==> v.raw % 0x8000_0000 == 0)
    ensures v.ty == F64 ==> (IsZero(v) <==> v.raw % 0x8000_0000_0000_0000 == 0)
  {
  }
}
