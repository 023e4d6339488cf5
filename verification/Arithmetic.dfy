/** Operand-stack values and the operators of ArithmeticOps over them.
    A value is a type tag and 64 raw bits; 32-bit operators read the low half. */
module Arithmetic {
  import opened Words
  import opened Isa

  datatype Value = Value(ty: Ty, raw: nat)

  /** The low 32 bits, as the VM's static_cast<uint32_t> reads them. */
  function Low(v: Value): (w: int)
    ensures IsWord(w)
  {
    v.raw % W32
  }

  function Signed64(raw: int): int {
    if raw % W64 < 0x8000_0000_0000_0000 then raw % W64 else raw % W64 - W64
  }

  predicate IsZero(v: Value) {
    match v.ty
    case I32 => Low(v) == 0
    case F32 => Low(v) == 0 || Low(v) == 0x8000_0000
    case F64 => v.raw == 0 || v.raw == 0x8000_0000_0000_0000
    case _ => v.raw == 0
  }

  predicate IsFloat(ty: Ty) {
    ty in {F32, F64}
  }

  predicate IsInteger(ty: Ty) {
    ty in {I32, UI32, I64, UI64}
  }

  /** `a op b` where b was on top of the stack. */
  function Apply(op: ArithOp, a: Value, b: Value): Outcome<Value> {
    match op
    case ADD => Add(a, b)
    case SUB => Sub(a, b)
    case MUL => Mul(a, b)
    case DIV => Div(a, b)
    case MOD => Mod(a, b)
    case AND => Bitwise(And, a, b)
    case ORR => Bitwise(Or, a, b)
    case XOR => Bitwise(Xor, a, b)
    case SHL => ShiftLeft(a, b)
    case SHR => ShiftRight(false, a, b)
    case SAR => ShiftRight(true, a, b)
    case _ => Compare(op, a, b)
  }

  function Add(a: Value, b: Value): Outcome<Value> {
    match (a.ty, b.ty)
    case (I32, I32) => Ok(Value(I32, ToWord(Signed(Low(a)) + Signed(Low(b)))))
    case (I32, PTR) => Ok(Value(PTR, ToWord(Signed(Low(a)) + Low(b))))
    case (UI32, UI32) => Ok(Value(UI32, ToWord(Low(a) + Low(b))))
    case (UI32, PTR) => Ok(Value(PTR, ToWord(Low(a) + Low(b))))
    case (PTR, I32) => Ok(Value(PTR, ToWord(Low(a) + Signed(Low(b)))))
    case (PTR, UI32) => Ok(Value(PTR, ToWord(Low(a) + Low(b))))
    case _ => Mismatch(a, b)
  }

  function Sub(a: Value, b: Value): Outcome<Value> {
    match (a.ty, b.ty)
    case (I32, I32) => Ok(Value(I32, ToWord(Signed(Low(a)) - Signed(Low(b)))))
    case (UI32, UI32) => Ok(Value(UI32, ToWord(Low(a) - Low(b))))
    case (PTR, PTR) => Ok(Value(I64, (Low(a) - Low(b)) % W64))
    case (PTR, I32) => Ok(Value(PTR, ToWord(Low(a) - Signed(Low(b)))))
    case (PTR, UI32) => Ok(Value(PTR, ToWord(Low(a) - Low(b))))
    case _ => Mismatch(a, b)
  }

  function Mul(a: Value, b: Value): Outcome<Value> {
    match (a.ty, b.ty)
    case (I32, I32) => Ok(Value(I32, ToWord(Signed(Low(a)) * Signed(Low(b)))))
    case (UI32, UI32) => Ok(Value(UI32, ToWord(Low(a) * Low(b))))
    case _ => Mismatch(a, b)
  }

  /** C++ leaves the quotient undefined when it does not fit, and when the 32-bit divisor is zero
      although the raw bits tested beforehand are not. */
  function Div(a: Value, b: Value): Outcome<Value> {
    match (a.ty, b.ty)
    case (I32, I32) => SignedDiv(Low(a), Low(b))
    case (UI32, UI32) => if Low(b) == 0 then Err(Undefined) else Ok(Value(UI32, Low(a) / Low(b)))
    case _ => Mismatch(a, b)
  }

  function SignedDiv(a: int, b: int): Outcome<Value>
    requires IsWord(a) && IsWord(b)
  {
    if b == 0 || (Signed(a) == -0x8000_0000 && Signed(b) == -1) then Err(Undefined)
    else Ok(Value(I32, ToWord(TruncDiv(Signed(a), Signed(b)))))
  }

  function Mod(a: Value, b: Value): Outcome<Value> {
    match (a.ty, b.ty)
    case (I32, I32) => SignedMod(Low(a), Low(b))
    case (UI32, UI32) => if Low(b) == 0 then Err(Undefined) else Ok(Value(UI32, Low(a) % Low(b)))
    case _ => Mismatch(a, b)
  }

  function SignedMod(a: int, b: int): Outcome<Value>
    requires IsWord(a) && IsWord(b)
  {
    if b == 0 || (Signed(a) == -0x8000_0000 && Signed(b) == -1) then Err(Undefined)
    else Ok(Value(I32, ToWord(TruncMod(Signed(a), Signed(b)))))
  }

  /** Operand types no operator accepts together; the 64-bit and float rows are not modelled. */
  function Mismatch(a: Value, b: Value): Outcome<Value> {
    if a.ty == b.ty && a.ty in {I64, UI64, F32, F64} then Err(Unmodelled) else Err(Internal)
  }

  function Bitwise(op: BitOp, a: Value, b: Value): Outcome<Value> {
    if a.ty != b.ty || !IsInteger(a.ty) then Err(Internal)
    else Ok(Value(a.ty, Bits(op, a.raw, b.raw)))
  }

  /** bitwiseNot complements all 64 raw bits, whatever the type. */
  function BitNot(v: Value): Outcome<Value> {
    if !IsInteger(v.ty) then Err(Internal) else Ok(Value(v.ty, W64 - 1 - v.raw % W64))
  }

  function ShiftLeft(a: Value, b: Value): Outcome<Value> {
    if !IsInteger(a.ty) || !IsInteger(b.ty) then Err(Internal)
    else if IsWide(a.ty) then Ok(Value(a.ty, a.raw * Pow2(Low(b) % 64) % W64))
    else Ok(Value(a.ty, a.raw * Pow2(Low(b) % 32) % W64 % W32))
  }

  function ShiftRight(arithmetic: bool, a: Value, b: Value): Outcome<Value> {
    if !IsInteger(a.ty) || !IsInteger(b.ty) then Err(Internal)
    else
      var p := Pow2(Low(b) % (if IsWide(a.ty) then 64 else 32));
      if arithmetic then
        if a.ty == I32 then Ok(Value(I32, ToWord(Signed(Low(a)) / p)))
        else Ok(Value(a.ty, Signed64(a.raw) / p % W64))
      else if IsWide(a.ty) then Ok(Value(a.ty, Quotient(a.raw, p)))
      else Ok(Value(a.ty, Quotient(a.raw, p) % W32))
  }

  /** Equality compares raw bits; order compares raw bits for unsigned types. The result is a ui32. */
  function Compare(op: ArithOp, a: Value, b: Value): Outcome<Value> {
    if a.ty != b.ty then Err(Internal)
    else if op == CEQ then Ok(Truth(a.raw == b.raw))
    else if op == CNE then Ok(Truth(a.raw != b.raw))
    else if IsFloat(a.ty) then Err(Unmodelled)
    else
      var x, y := OrderKey(a), OrderKey(b);
      match op
      case CLT => Ok(Truth(x < y))
      case CLE => Ok(Truth(x <= y))
      case CGT => Ok(Truth(x > y))
      case _ => Ok(Truth(x >= y))
  }

  function OrderKey(v: Value): int {
    match v.ty
    case I32 => Signed(Low(v))
    case I64 => Signed64(v.raw)
    case _ => v.raw
  }

  function Truth(b: bool): Value {
    Value(UI32, if b then 1 else 0)
  }

  /** convertToType, without the float rows. */
  function ConvertTo(v: Value, ty: Ty): Outcome<Value> {
    if v.ty == ty then Ok(v)
    else if IsFloat(v.ty) || IsFloat(ty) then Err(if v.ty == PTR || ty == PTR then Internal else Unmodelled)
    else
      var x := Typed(v);
      if ty == PTR && !(0 <= x < W32) then Err(OutOfRange)
      else Ok(Value(ty, if IsWide(ty) then x % W64 else x % W32))
  }

  /** toTyped: the number a non-float value stands for. */
  function Typed(v: Value): int {
    match v.ty
    case I32 => Signed(Low(v))
    case I64 => Signed64(v.raw)
    case UI64 => v.raw % W64
    case _ => Low(v)
  }

  /** The quotient and the remainder of two ints are undefined in C++ exactly for a zero divisor and for the least
      int over minus one. */
  lemma {:induction false} QuotientUndefined(a: Value, b: Value)
    requires a.ty == I32 && b.ty == I32
    ensures var bad := Low(b) == 0 || (Signed(Low(a)) == -0x8000_0000 && Signed(Low(b)) == -1);
      && (Apply(DIV, a, b) == Outcome.Err(Undefined) <==> bad) && (Apply(MOD, a, b) == Outcome.Err(Undefined) <==> bad)
      && (!bad ==> Apply(DIV, a, b).Ok? && Apply(MOD, a, b).Ok?)
  {
    hide TruncDiv, TruncMod, ToWord, Signed;
    assert Apply(DIV, a, b) == SignedDiv(Low(a), Low(b)) && Apply(MOD, a, b) == SignedMod(Low(a), Low(b));
  }

  /** Unsigned results that fit into a word. */
  lemma {:induction false} UnsignedQuadruple(x: nat)
    requires 4 * x < W32
    ensures Apply(MUL, Value(UI32, x), Value(UI32, 4)) == Outcome.Ok(Value(UI32, 4 * x))
  {
    hide Add, Sub, Div, Mod, Bitwise, ShiftLeft, ShiftRight, Compare;
    assert Low(Value(UI32, x)) == x && Low(Value(UI32, 4)) == 4;
  }

  lemma {:induction false} UnsignedSum(x: nat, y: nat)
    requires x + y < W32
    ensures Apply(ADD, Value(UI32, x), Value(UI32, y)) == Outcome.Ok(Value(UI32, x + y))
    ensures Apply(ADD, Value(PTR, x), Value(UI32, y)) == Outcome.Ok(Value(PTR, x + y))
  {
    hide Sub, Mul, Div, Mod, Bitwise, ShiftLeft, ShiftRight, Compare;
    assert Low(Value(UI32, x)) == x && Low(Value(PTR, x)) == x && Low(Value(UI32, y)) == y;
  }
}
