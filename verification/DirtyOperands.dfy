/** What goes wrong outside the domain of the code generator: operators that read all 64 bits of an int
    whose high half `not` has filled, and signs of chars. */
module DirtyOperands {
  import opened Words
  import opened Isa
  import opened Arithmetic
  import opened Machine
  import opened Accesses
  import opened Source
  import opened Domain
  import opened CodeGen
  import opened Cursor
  import opened FlatMemory
  import opened Simulation
  import opened ExprSimulation

  function High(v: Value): int {
    v.raw / W32
  }

  /** Two operands of one 32-bit type compare as their words do exactly unless the words are equal and the
      high halves differ. */
  lemma {:induction false} EqualityExact(a: Value, b: Value)
    requires a.ty == b.ty && a.raw < W64 && b.raw < W64
    ensures Apply(CEQ, a, b) == Outcome.Ok(Truth(Low(a) == Low(b))) <==> !(Low(a) == Low(b) && High(a) != High(b))
    ensures Apply(CNE, a, b) == Outcome.Ok(Truth(Low(a) != Low(b))) <==> !(Low(a) == Low(b) && High(a) != High(b))
  {
    assert a.raw == W32 * High(a) + Low(a) && b.raw == W32 * High(b) + Low(b);
  }

  /** A logical shift to the right by k gives the shifted word exactly when the k lowest bits of the high half
      are zero: those are shifted in. */
  lemma {:induction false} LogicShiftExact(a: Value, b: Value)
    requires a.ty == I32 && b.ty == I32 && a.raw < W64
    ensures var p := Pow2(Low(b) % 32);
      Apply(SHR, a, b) == Outcome.Ok(Value(I32, Quotient(Low(a), p))) <==> High(a) % p == 0
  {
    var k := Low(b) % 32;
    var p := Pow2(k);
    assert Apply(SHR, a, b) == ShiftRight(false, a, b);
    HighBitsShiftIn(High(a), Low(a), k);
    assert a.raw == W32 * High(a) + Low(a);
  }

  lemma {:induction false} HighBitsShiftIn(high: nat, low: nat, k: nat)
    requires IsWord(low) && k < 32
    ensures Quotient(W32 * high + low, Pow2(k)) % W32 == Quotient(low, Pow2(k)) <==> high % Pow2(k) == 0
  {
    hide Pow2;
    var p, c := Pow2(k), Pow2(32 - k);
    PowersMultiply(k, 32 - k);
    Halves(high, p);
    Halves(low, p);
    ShiftedIn(p, c, high / p, high % p, low / p, low % p);
  }

  lemma {:induction false} Halves(n: nat, p: nat)
    requires p > 0
    ensures n == n / p * p + n % p && n % p < p
  {
  }

  /** The quotient of the whole, and what is left of it in 32 bits. */
  lemma {:induction false} ShiftedIn(p: nat, c: nat, h: nat, r: nat, q: nat, l: nat)
    requires p > 0 && p * c == W32 && r < p && l < p && q * p + l < W32
    ensures Quotient(W32 * (h * p + r) + (q * p + l), p) % W32 == Quotient(q * p + l, p) <==> r == 0
  {
    hide Quotient;
    ShiftedSum(p, c, h, r, q, l);
    QuotientOf(q, p, l);
    Below(p, c, r, q, l);
    ModUnique(h * W32 + (r * c + q), W32, h, r * c + q);
    assert r * c == 0 <==> r == 0;
  }

  lemma {:induction false} QuotientOf(q: nat, p: nat, l: nat)
    requires l < p
    ensures Quotient(q * p + l, p) == q
  {
    ModUnique(q * p + l, p, q, l);
  }

  lemma {:induction false} Below(p: nat, c: nat, r: nat, q: nat, l: nat)
    requires p * c == W32 && r < p && q * p + l < W32
    ensures 0 <= r * c + q < W32 && c > 0
  {
    assert c * p == p * c;
    if q >= c {
      MulLe(c, q, p);
    }
    MulLe(r + 1, p, c);
    assert (r + 1) * c == r * c + c;
  }

  lemma {:induction false} ShiftedSum(p: nat, c: nat, h: nat, r: nat, q: nat, l: nat)
    requires p > 0 && p * c == W32 && l < p
    ensures Quotient(W32 * (h * p + r) + (q * p + l), p) == h * W32 + (r * c + q)
  {
    var n := h * W32 + (r * c + q);
    assert W32 * (h * p + r) == h * W32 * p + r * c * p by {
      assert W32 * (h * p) == h * W32 * p;
      assert W32 * r == r * (p * c) == r * c * p;
    }
    assert n * p == h * W32 * p + r * c * p + q * p;
    ModUnique(n * p + l, p, n, l);
  }

  lemma {:induction false} PowersMultiply(j: nat, k: nat)
    requires j + k == 32
    ensures Pow2(j) * Pow2(k) == W32
  {
    Pow2Sum(j, k);
    Pow2Is32();
  }

  lemma {:induction false} Pow2Sum(j: nat, k: nat)
    ensures Pow2(j) * Pow2(k) == Pow2(j + k)
    decreases j
  {
    if j > 0 {
      Pow2Sum(j - 1, k);
      assert Pow2(j) == 2 * Pow2(j - 1) && Pow2(j + k) == 2 * Pow2(j - 1 + k);
    }
  }

  // ---------------------------------------------------------------- programs that go wrong

  /** `~0 == -1` is true. */
  lemma {:induction false} ComplementMeans(fr: Frame, st: Store)
    ensures var e := Binary(Equal, Unary(BitwiseNot, IntLit(0)), IntLit(-1));
      WellTyped(e, fr) && !Sound(e, fr) && Eval(e, st) == Outcome.Ok((1, st))
  {
    var l, r := Unary(BitwiseNot, IntLit(0)), IntLit(-1);
    assert WellTyped(IntLit(0), fr) && WellTyped(l, fr) && WellTyped(r, fr) && TypeOf(l) == TInt && TypeOf(r) == TInt;
    assert Eval(IntLit(0), st) == Outcome.Ok((0, st));
    assert Eval(l, st) == Outcome.Ok((W32 - 1, st)) && Eval(r, st) == Outcome.Ok((W32 - 1, st));
    assert !Clean(l, fr);
    assert !SoundRight(Equal, CleanAs(l, TInt, fr), r, fr);
  }

  lemma {:induction false} ComplementCode(k: nat)
    ensures CodeExpr(Binary(Equal, Unary(BitwiseNot, IntLit(0)), IntLit(-1)), k)
      == Seq(Seq(Ins(Push(I32, 0), Done), Ins(Not, Done)), Seq(Ins(Push(I32, -1), Done), Ins(Arith(CEQ), Done)))
  {
    assert CodeExpr(Unary(BitwiseNot, IntLit(0)), k) == Seq(Ins(Push(I32, 0), Done), Ins(Not, Done));
  }

  /** Its code pushes false. */
  lemma {:induction false} ComplementExample(im: Image, s: State, n: nat, t: State, k: nat, end: int)
    returns (u: State)
    requires At(im, s, n, t, CodeExpr(Binary(Equal, Unary(BitwiseNot, IntLit(0)), IntLit(-1)), k), end)
    requires |t.stack| + 2 <= MAX_OPERANDS
    ensures Reaches(im.code, s, n, u) && u == t.(pc := end, stack := t.stack + [Truth(false)])
  {
    hide Run, Step, Execute, Reaches, Loaded, Length, Apply, CodeExpr;
    var r2 := Ins(Arith(CEQ), Done);
    var r1 := Seq(Ins(Push(I32, -1), Done), r2);
    var left := Seq(Ins(Push(I32, 0), Done), Ins(Not, Done));
    ComplementCode(k);
    SpansSeq(im, t.pc, left, r1, end);
    var mid := t.pc + Length(left);
    SpansSeq(im, t.pc, Ins(Push(I32, 0), Done), Ins(Not, Done), mid);
    var t1 := DoPush(im, s, n, t, I32, 0, Done, t.pc + Length(Ins(Push(I32, 0), Done)));
    AtEnd(im, s, n + 1, t1, Done, t.pc + Length(Ins(Push(I32, 0), Done)));
    var x := Value(I32, W64 - 1);
    var t2 := DoNot(im, s, n + 1, t1, Done, mid, t.stack, Value(I32, 0), x);
    AtEnd(im, s, n + 2, t2, Done, mid);
    SpansSeq(im, mid, Ins(Push(I32, -1), Done), r2, end);
    var m2 := mid + Length(Ins(Push(I32, -1), Done));
    var t3 := DoPush(im, s, n + 2, t2, I32, -1, Done, m2);
    AtEnd(im, s, n + 3, t3, Done, m2);
    var y := Value(I32, W32 - 1);
    assert t3.stack == t.stack + [x, y];
    DirtyEqual(x, y);
    u := DoArith(im, s, n + 3, t3, CEQ, Done, end, t.stack, x, y, Truth(false));
    AtEnd(im, s, n + 4, u, Done, end);
    ReachesWeaken(im.code, s, n + 4, n, u);
  }

  lemma {:induction false} DirtyEqual(x: Value, y: Value)
    requires x.ty == y.ty && x.raw != y.raw
    ensures Apply(CEQ, x, y) == Outcome.Ok(Truth(false))
  {
  }

  lemma {:induction false} DoNot(im: Image, s: State, n: nat, t: State, rest: Asm, end: int, S: seq<Value>, v: Value,
          r: Value)
    returns (u: State)
    requires At(im, s, n, t, Ins(Not, rest), end) && t.stack == S + [v] && BitNot(v) == Outcome.Ok(r)
    requires |S| < MAX_OPERANDS
    ensures u == t.(pc := t.pc + 1, stack := S + [r]) && At(im, s, n + 1, u, rest, end)
  {
    DoIns(im, s, n, t, Not, rest, end);
    u := t.(pc := t.pc + 1, stack := S + [r]);
    assert Drop(After(t, Not), 1) == S;
  }

  /** `+c + 1` for a char c is an int with a value. */
  lemma {:induction false} SignOfCharMeans(c: int, fr: Frame, st: Store)
    requires IsWord(c)
    ensures var e := Binary(Plus, Unary(UPlus, CharLit(c)), IntLit(1));
      WellTyped(e, fr) && TypeOf(e) == TInt && !Sound(e, fr) && Eval(e, st).Ok?
  {
    var l, r := Unary(UPlus, CharLit(c)), IntLit(1);
    assert WellTyped(CharLit(c), fr) && WellTyped(l, fr) && WellTyped(r, fr) && TypeOf(l) == TInt;
    assert !Sound(l, fr);
    assert Eval(CharLit(c), st).Ok?;
    assert Eval(l, st).Ok? && Eval(r, st).Ok?;
  }

  /** Its code raises an internal error, for every c. */
  lemma {:induction false} SignOfCharExample(im: Image, s: State, n: nat, t: State, c: int, k: nat, end: int)
    returns (u: State)
    requires IsWord(c) && At(im, s, n, t, CodeExpr(Binary(Plus, Unary(UPlus, CharLit(c)), IntLit(1)), k), end)
    requires |t.stack| + 2 <= MAX_OPERANDS
    ensures Reaches(im.code, s, n, u) && u.status == Failed(Internal)
  {
    hide Run, Step, Execute, Reaches, Loaded, Length;
    var e := Binary(Plus, Unary(UPlus, CharLit(c)), IntLit(1));
    var r2 := Ins(Arith(ADD), Done);
    var left := Ins(Push(UI32, c), Done);
    var right := Seq(Ins(Push(I32, 1), Done), r2);
    assert CodeExpr(Unary(UPlus, CharLit(c)), k) == left;
    assert CodeRight(Plus, TInt, IntLit(1), k) == right;
    assert CodeExpr(e, k) == Seq(left, right);
    SpansSeq(im, t.pc, left, right, end);
    var mid := t.pc + Length(left);
    var t1 := DoPush(im, s, n, t, UI32, c, Done, mid);
    AtEnd(im, s, n + 1, t1, Done, mid);
    SpansSeq(im, mid, Ins(Push(I32, 1), Done), r2, end);
    var m2 := mid + Length(Ins(Push(I32, 1), Done));
    var t2 := DoPush(im, s, n + 1, t1, I32, 1, Done, m2);
    AtEnd(im, s, n + 2, t2, Done, m2);
    assert t2.stack == t.stack + [Value(UI32, c), Value(I32, 1)];
    u := DoArithFails(im, s, n + 2, t2, ADD, Done, end, t.stack, Value(UI32, c), Value(I32, 1), Internal);
    ReachesWeaken(im.code, s, n + 3, n, u);
  }

  /** In general: below any sound operand the code of `+x` or `-x` leaves the right word; it is tagged with the
      type of the expression if and only if x is no char. */
  lemma {:induction false} SignTagExact(im: Image, s: State, n: nat, t: State, op: UnOp, x: Expr, k: nat, end: int,
          fr: Frame, st: Store)
    returns (u: State, v: Value)
    requires op == UPlus || op == UMinus
    requires At(im, s, n, t, CodeExpr(Unary(op, x), k), end) && WellTyped(Unary(op, x), fr) && Sound(x, fr)
    requires Represented(t, fr, st) && |t.stack| + 1 + Need(x) <= MAX_OPERANDS
    ensures Reaches(im.code, s, n, u)
    ensures match Eval(Unary(op, x), st)
            case Ok((w, st1)) =>
              && u.status == Running && u.pc == end && u.stack == t.stack + [v] && Represented(u, fr, st1)
              && Low(v) == w && (v.ty == AsmTy(TypeOf(Unary(op, x))) <==> TypeOf(x) != TChar)
            case Err(f) => u.status == Failed(f)
  {
    hide Run, Step, Execute, Reaches, Spans, Loaded, Length, Represented, Keeps, WellTyped, Sound, Get, Read64;
    NeedPositive(x);
    NumericOperand(op, x, fr);
    if op == UPlus {
      u, v := SimExpr(im, s, n, t, x, k, end, fr, st);
      if Eval(x, st).Ok? {
        EvalIsWord(x, st);
      }
      ReachesWeaken(im.code, s, n + 1, n, u);
    } else {
      u, v := MinusTag(im, s, n, t, x, k, end, fr, st);
    }
  }

  /** -x is 0 - x on operands of x's own tag. */
  lemma {:induction false} MinusTag(im: Image, s: State, n: nat, t: State, x: Expr, k: nat, end: int, fr: Frame,
          st: Store)
    returns (u: State, v: Value)
    requires At(im, s, n, t, UnaryTemplate(UMinus, TypeOf(x), k, CodeExpr(x, k)), end)
    requires WellTyped(x, fr) && IsNumeric(TypeOf(x)) && Sound(x, fr)
    requires Represented(t, fr, st) && |t.stack| + 1 + Need(x) <= MAX_OPERANDS
    ensures Reaches(im.code, s, n, u)
    ensures match Eval(x, st)
            case Ok((w, st1)) =>
              && u.status == Running && u.pc == end && u.stack == t.stack + [v] && Represented(u, fr, st1)
              && v == Value(AsmTy(TypeOf(x)), ToWord(-Signed(w)))
            case Err(f) => u.status == Failed(f)
  {
    hide Run, Step, Execute, Reaches, Spans, Loaded, Length, Represented, Keeps, WellTyped, Sound, Get, Read64,
      CodeExpr, Eval;
    NeedPositive(x);
    var ty := AsmTy(TypeOf(x));
    var code, tail := CodeExpr(x, k), Ins(Arith(SUB), Done);
    var t1 := DoPush(im, s, n, t, ty, 0, Seq(code, tail), end);
    SameStore(t, t1, fr, st);
    SpansSeq(im, t1.pc, code, tail, end);
    var u1, v1 := SimExpr(im, s, n + 1, t1, x, k, t1.pc + Length(code), fr, st);
    u, v := u1, v1;
    ReachesWeaken(im.code, s, n + 2, n, u1);
    if Eval(x, st).Ok? {
      var (w, st1) := Eval(x, st).value;
      v := Value(ty, ToWord(-Signed(w)));
      assert u1.stack == t.stack + [Value(ty, 0), v1];
      NegatedWord(ty, v1, w);
      u := DoArith(im, s, n + 2, u1, SUB, Done, end, t.stack, Value(ty, 0), v1, v);
      AtEnd(im, s, n + 3, u, Done, end);
      ReachesWeaken(im.code, s, n + 3, n, u);
      SameStore(u1, u, fr, st1);
    }
  }

  lemma {:induction false} NumericOperand(op: UnOp, x: Expr, fr: Frame)
    requires (op == UPlus || op == UMinus) && WellTyped(Unary(op, x), fr)
    ensures WellTyped(x, fr) && IsNumeric(TypeOf(x))
  {
  }

  lemma {:induction false} EvalIsWord(x: Expr, st: Store)
    requires Eval(x, st).Ok?
    ensures IsWord(Eval(x, st).value.0)
  {
  }

  lemma {:induction false} NegatedWord(ty: Ty, v: Value, w: int)
    requires (ty == I32 || ty == UI32) && v.ty == ty && Low(v) == w
    ensures Apply(SUB, Value(ty, 0), v) == Outcome.Ok(Value(ty, ToWord(-Signed(w))))
  {
    hide Add, Mul, Div, Mod, Bitwise, ShiftLeft, ShiftRight, Compare;
  }

  // ---------------------------------------------------------------- equalities at run time

  /** The code of an equality of two ints, the right one clean, whose left operand is on the stack. */
  lemma {:induction false} EqualityRest(im: Image, s: State, n: nat, t: State, r: Expr, k: nat, end: int, fr: Frame,
          st: Store, S: seq<Value>, v: Value)
    returns (u: State)
    requires At(im, s, n, t, CodeRight(Equal, TInt, r, k), end) && t.stack == S + [v] && v.ty == I32
    requires TypeOf(r) == TInt && WellTyped(r, fr) && Sound(r, fr) && Clean(r, fr) && Eval(r, st).Ok?
    requires Represented(t, fr, st) && |S| + 1 + Need(r) <= MAX_OPERANDS
    ensures var (w, st1) := Eval(r, st).value;
      && Reaches(im.code, s, n, u) && u.status == Running && u.pc == end && Represented(u, fr, st1)
      && u.stack == S + [Truth(Low(v) == w && High(v) == 0)]
  {
    hide Run, Step, Execute, Reaches, Spans, Loaded, Length, Represented, Keeps, WellTyped, Sound, Get, Read64,
      CodeExpr;
    NeedPositive(r);
    var code, tail := CodeExpr(r, k), Ins(Arith(CEQ), Done);
    assert CodeRight(Equal, TInt, r, k) == Seq(code, tail);
    SpansSeq(im, t.pc, code, tail, end);
    var u1, v1 := SimExpr(im, s, n, t, r, k, t.pc + Length(code), fr, st);
    var (w, st1) := Eval(r, st).value;
    EvalIsWord(r, st);
    assert u1.stack == S + [v, v1];
    RawEquality(v, v1, w);
    u := DoArith(im, s, n + 1, u1, CEQ, Done, end, S, v, v1, Truth(Low(v) == w && High(v) == 0));
    AtEnd(im, s, n + 2, u, Done, end);
    ReachesWeaken(im.code, s, n + 2, n, u);
    SameStore(u1, u, fr, st1);
  }

  lemma {:induction false} RawEquality(v: Value, r: Value, w: int)
    requires v.ty == r.ty == I32 && r.raw == w && IsWord(w)
    ensures Apply(CEQ, v, r) == Outcome.Ok(Truth(Low(v) == w && High(v) == 0))
  {
    assert v.raw == W32 * High(v) + Low(v);
  }

  /** An equality of two ints whose left operand need not be clean: the VM finds them equal exactly when the words
      are equal and the operand v that the left side leaves has a zero high half. */
  lemma {:induction false} EqualityRuns(im: Image, s: State, n: nat, t: State, l: Expr, r: Expr, k: nat, end: int,
          fr: Frame, st: Store)
    returns (u: State, v: Value)
    requires At(im, s, n, t, CodeExpr(Binary(Equal, l, r), k), end) && Represented(t, fr, st)
    requires TypeOf(l) == TInt && WellTyped(l, fr) && Sound(l, fr)
    requires TypeOf(r) == TInt && WellTyped(r, fr) && Sound(r, fr) && Clean(r, fr)
    requires |t.stack| + Max(Need(l), 1 + Need(r)) <= MAX_OPERANDS
    requires Eval(l, st).Ok? && Eval(r, Eval(l, st).value.1).Ok?
    ensures var (a, st1) := Eval(l, st).value;
      var (b, st2) := Eval(r, st1).value;
      && Reaches(im.code, s, n, u) && u.status == Running && u.pc == end && Represented(u, fr, st2)
      && Low(v) == a && (Clean(l, fr) ==> High(v) == 0)
      && u.stack == t.stack + [Truth(a == b && High(v) == 0)]
  {
    hide Run, Step, Execute, Reaches, Spans, Loaded, Length, Represented, Keeps, WellTyped, Sound, Get, Read64, Eval,
      CodeRight;
    var (a, st1) := Eval(l, st).value;
    var code, rest := CodeExpr(l, k), CodeRight(Equal, TInt, r, k + LabelsOf(l));
    SpansSeq(im, t.pc, code, rest, end);
    var u1, v1 := SimExpr(im, s, n, t, l, k, t.pc + Length(code), fr, st);
    v := v1;
    ReachesWeaken(im.code, s, n + 1, n, u1);
    u := EqualityRest(im, s, n, u1, r, k + LabelsOf(l), end, fr, st1, t.stack, v);
  }

  /** `~x == r` for clean ints is false at run time whatever the operands are, so it is wrong exactly for the
      stores in which it is true. */
  lemma {:induction false} ComplementEqualityRuns(im: Image, s: State, n: nat, t: State, x: Expr, r: Expr, k: nat,
          end: int, fr: Frame, st: Store)
    returns (u: State)
    requires At(im, s, n, t, CodeExpr(Binary(Equal, Unary(BitwiseNot, x), r), k), end) && Represented(t, fr, st)
    requires TypeOf(x) == TInt && WellTyped(x, fr) && Sound(x, fr) && Clean(x, fr)
    requires TypeOf(r) == TInt && WellTyped(r, fr) && Sound(r, fr) && Clean(r, fr)
    requires |t.stack| + Max(Need(x), 1 + Need(r)) <= MAX_OPERANDS
    requires Eval(x, st).Ok? && Eval(r, Eval(x, st).value.1).Ok?
    ensures Reaches(im.code, s, n, u) && u.status == Running && u.pc == end && u.stack == t.stack + [Truth(false)]
  {
    hide Run, Step, Execute, Reaches, Spans, Loaded, Length, Represented, Keeps, WellTyped, Sound, Get, Read64, Eval,
      CodeRight, BitNot;
    var (a, st1) := Eval(x, st).value;
    var code, rest := CodeExpr(x, k), CodeRight(Equal, TInt, r, k + LabelsOf(x));
    var left := Seq(code, Ins(Not, Done));
    NeedPositive(x);
    assert CodeExpr(Unary(BitwiseNot, x), k) == left && TypeOf(Unary(BitwiseNot, x)) == TInt;
    assert LabelsOf(Unary(BitwiseNot, x)) == LabelsOf(x);
    SpansSeq(im, t.pc, left, rest, end);
    var mid := t.pc + Length(left);
    SpansSeq(im, t.pc, code, Ins(Not, Done), mid);
    var u1, v1 := SimExpr(im, s, n, t, x, k, t.pc + Length(code), fr, st);
    EvalIsWord(x, st);
    var v := Value(I32, W64 - 1 - a);
    NotOfWord(v1, a);
    var u2 := DoNot(im, s, n + 1, u1, Done, mid, t.stack, v1, v);
    AtEnd(im, s, n + 2, u2, Done, mid);
    SameStore(u1, u2, fr, st1);
    u := EqualityRest(im, s, n + 2, u2, r, k + LabelsOf(x), end, fr, st1, t.stack, v);
    ReachesWeaken(im.code, s, n + 2, n, u);
  }

  lemma {:induction false} NotOfWord(v: Value, a: int)
    requires v.ty == I32 && v.raw == a && IsWord(a)
    ensures BitNot(v) == Outcome.Ok(Value(I32, W64 - 1 - a)) && High(Value(I32, W64 - 1 - a)) == W32 - 1
  {
  }
}
