/** Running the code of an expression computes the expression. */
module ExprSimulation {
  import opened Words
  import opened Isa
  import opened FlatMemory
  import opened Arithmetic
  import opened Machine
  import opened Accesses
  import opened Source
  import opened Domain
  import opened CodeGen
  import opened Cursor
  import opened Simulation

  /** For every well-typed, sound expression, any state at the start of its code, and any operand stack
      with room: the run reaches the end of the code with one more value on the stack, the one the
      source computes, tagged with the assembly type of the expression, and the frame represents the
      new store; or it raises the error the source raises. */
  lemma {:induction false} SimExpr(im: Image, s: State, n: nat, t: State, e: Expr, k: nat, end: int, fr: Frame,
          st: Store)
    returns (u: State, v: Value)
    requires At(im, s, n, t, CodeExpr(e, k), end)
    requires WellTyped(e, fr) && Sound(e, fr) && Represented(t, fr, st)
    requires |t.stack| + Need(e) <= MAX_OPERANDS
    ensures ExprDone(im, s, n + 1, t, t.stack, u, v, end, fr, TypeOf(e), Clean(e, fr), Eval(e, st))
    decreases e, 2
  {
    hide Read64, Get, Run, Step, Execute, Reaches, Spans, Loaded, Length, Represented, Keeps, ExprDone, Shows,
      ConvertedDone, TernaryType, CleanResult;
    NeedPositive(e);
    match e
    case Unary(op, x) =>
      u, v := SimUnary(im, s, n, t, op, x, k, end, fr, st);
    case IncDec(prefix, up, slot, ty) =>
      if prefix {
        u, v := SimPrefix(im, s, n, t, up, slot, ty, end, fr, st);
      } else {
        u, v := SimPostfix(im, s, n, t, up, slot, ty, end, fr, st);
      }
    case Binary(_, _, _) => u, v := SimComposite(im, s, n, t, e, k, end, fr, st);
    case Ternary(_, _, _) => u, v := SimComposite(im, s, n, t, e, k, end, fr, st);
    case Cast(_, _) => u, v := SimComposite(im, s, n, t, e, k, end, fr, st);
    case _ => u, v := SimLeaf(im, s, n, t, e, k, end, fr, st);
  }

  lemma {:induction false} SimComposite(im: Image, s: State, n: nat, t: State, e: Expr, k: nat, end: int, fr: Frame,
          st: Store)
    returns (u: State, v: Value)
    requires e.Binary? || e.Ternary? || e.Cast?
    requires At(im, s, n, t, CodeExpr(e, k), end)
    requires WellTyped(e, fr) && Sound(e, fr) && Represented(t, fr, st)
    requires |t.stack| + Need(e) <= MAX_OPERANDS
    ensures ExprDone(im, s, n + 1, t, t.stack, u, v, end, fr, TypeOf(e), Clean(e, fr), Eval(e, st))
    decreases e, 1
  {
    hide Read64, Get, Run, Step, Execute, Reaches, Spans, Loaded, Length, Represented, Keeps, ExprDone, Shows,
      ConvertedDone, TernaryType, CleanResult, EvalRight, BinaryAccepts, SoundRight, NeedRight, ConvIf, CodeRight, Max;
    match e
    case Binary(op, l, r) =>
      u, v := SimBinary(im, s, n, t, op, l, r, k, end, fr, st);
    case Ternary(c, x, y) =>
      u, v := SimTernary(im, s, n, t, c, x, y, k, end, fr, st);
    case Cast(ty, x) =>
      u, v := SimConverted(im, s, n, t, x, k, ty, Done, end, fr, st);
      ConvertedAtEnd(im, s, n + 1, t, u, v, end, fr, ty, CleanAs(x, ty, fr), Eval(x, st));
  }

  /** Literals and locals. */
  lemma {:induction false} SimLeaf(im: Image, s: State, n: nat, t: State, e: Expr, k: nat, end: int, fr: Frame,
          st: Store)
    returns (u: State, v: Value)
    requires e.IntLit? || e.BoolLit? || e.CharLit? || e.Local?
    requires At(im, s, n, t, CodeExpr(e, k), end)
    requires WellTyped(e, fr) && Represented(t, fr, st) && |t.stack| < MAX_OPERANDS
    ensures ExprDone(im, s, n + 1, t, t.stack, u, v, end, fr, TypeOf(e), Clean(e, fr), Eval(e, st))
  {
    hide Read64, Get, Run, Step, Execute, Reaches, Spans, Loaded, Length, Represented, Keeps;
    match e {
      case IntLit(i) =>
        WordRoundTrip(i);
        v := Value(I32, ToWord(i));
        u := DoPush(im, s, n, t, I32, i, Done, end);
      case BoolLit(b) =>
        v := Value(UI32, Flag(b));
        u := DoPush(im, s, n, t, UI32, Flag(b), Done, end);
      case CharLit(c) =>
        v := Value(UI32, c);
        u := DoPush(im, s, n, t, UI32, c, Done, end);
      case Local(slot, ty) =>
        CellHolds(t, fr, st, slot);
        v := Value(AsmTy(ty), Read64(t.mem, t.fp + 8 * slot));
        u := DoLoadL(im, s, n, t, AsmTy(ty), slot, t.fp + 8 * slot, Done, end);
    }
    AtEnd(im, s, n + 1, u, Done, end);
    SameStore(t, u, fr, st);
  }

  lemma {:induction false} SimBinary(im: Image, s: State, n: nat, t: State, op: BinOp, l: Expr, r: Expr, k: nat,
          end: int, fr: Frame, st: Store)
    returns (u: State, v: Value)
    requires At(im, s, n, t, Seq(CodeExpr(l, k), CodeRight(op, TypeOf(l), r, k + LabelsOf(l))), end)
    requires WellTyped(l, fr) && WellTyped(r, fr) && BinaryAccepts(op, TypeOf(l), TypeOf(r))
    requires Sound(l, fr) && SoundRight(op, CleanAs(l, TInt, fr), r, fr) && Represented(t, fr, st)
    requires |t.stack| + Max(Need(l), NeedRight(op, r)) <= MAX_OPERANDS
    ensures ExprDone(im, s, n + 1, t, t.stack, u, v, end, fr, ResultOf(op),
                     CleanResult(op, CleanAs(l, TInt, fr), CleanAs(r, TInt, fr)), BinaryOutcome(op, Eval(l, st), r))
    decreases Binary(op, l, r), 0
  {
    hide Read64, Get, Run, Step, Execute, Reaches, Spans, Loaded, Length, Represented, Keeps, CodeExpr, CodeRight,
      WellTyped, Sound, SoundRight, Clean, CleanAs, Eval, EvalRight, Need, NeedRight, CleanResult, ResultOf, ExprDone;
    var code, right := CodeExpr(l, k), CodeRight(op, TypeOf(l), r, k + LabelsOf(l));
    var mid := t.pc + Length(code);
    SpansSeq(im, t.pc, code, right, end);
    u, v := SimExpr(im, s, n, t, l, k, mid, fr, st);
    if Eval(l, st).Ok? {
      if TypeOf(l) != TInt { NonIntIsClean(l, fr); }
      u, v := SimBinaryRest(im, s, n, t, u, v, op, l, r, k + LabelsOf(l), mid, end, fr, Eval(l, st));
    } else {
      StillFails(im, s, n + 1, t, t.stack, u, v, mid, end, fr, TypeOf(l), ResultOf(op), Clean(l, fr),
                 CleanResult(op, CleanAs(l, TInt, fr), CleanAs(r, TInt, fr)), Eval(l, st));
    }
  }

  /** An error is the same error whatever the place and type of the result. */
  lemma {:induction false} StillFails(im: Image, s: State, n: nat, t: State, S: seq<Value>, u: State, v: Value,
          mid: int, end: int, fr: Frame, ty: Type, ty': Type, clean: bool, clean': bool, r: Outcome<(int, Store)>)
    requires r.Err? && ExprDone(im, s, n, t, S, u, v, mid, fr, ty, clean, r)
    ensures ExprDone(im, s, n, t, S, u, v, end, fr, ty', clean', r)
  {
    hide Reaches;
  }

  /** The right operand and the operator, once the left operand is on the stack. */
  lemma {:induction false} SimBinaryRest(im: Image, s: State, n: nat, t: State, u1: State, v1: Value, op: BinOp,
          l: Expr, r: Expr, k: nat, mid: int, end: int, fr: Frame, left: Outcome<(int, Store)>)
    returns (u: State, v: Value)
    requires left.Ok? && IsWord(left.value.0)
    requires ExprDone(im, s, n + 1, t, t.stack, u1, v1, mid, fr, TypeOf(l), Clean(l, fr), left)
    requires Spans(im, mid, CodeRight(op, TypeOf(l), r, k), end) && WellTyped(r, fr)
    requires BinaryAccepts(op, TypeOf(l), TypeOf(r))
    requires SoundRight(op, CleanAs(l, TInt, fr), r, fr) && (TypeOf(l) != TInt ==> Clean(l, fr))
    requires |t.stack| + NeedRight(op, r) <= MAX_OPERANDS
    ensures ExprDone(im, s, n + 1, t, t.stack, u, v, end, fr, ResultOf(op),
                     CleanResult(op, CleanAs(l, TInt, fr), CleanAs(r, TInt, fr)), BinaryOutcome(op, left, r))
    decreases Binary(op, l, r), 0, 0
  {
    hide *;
    var (a, st1) := left.value;
    LeftValue(op, left, r);
    ExprArrives(im, s, n + 1, t, t.stack, u1, v1, mid, fr, TypeOf(l), Clean(l, fr), left,
      CodeRight(op, TypeOf(l), r, k),
      end);
    RightSound(op, CleanAs(l, TInt, fr), r, fr);
    CleanAsInt(l, fr);
    u, v := SimRight(im, s, n + 1, u1, op, TypeOf(l), r, k, end, fr, st1, t.stack, v1, a, Clean(l, fr));
    Prefixed(im, s, n + 2, n + 1, t, u1, t.stack, u, v, end, fr, ResultOf(op),
             CleanResult(op, CleanAs(l, TInt, fr), CleanAs(r, TInt, fr)), EvalRight(op, a, r, st1));
  }

  /** An expression that yielded a value leaves the cursor at whatever is loaded behind it. */
  lemma {:induction false} ExprArrives(im: Image, s: State, n: nat, t: State, S: seq<Value>, u: State, v: Value,
          mid: int, fr: Frame, ty: Type, clean: bool, r: Outcome<(int, Store)>, rest: Asm, end: int)
    requires r.Ok? && ExprDone(im, s, n, t, S, u, v, mid, fr, ty, clean, r) && Spans(im, mid, rest, end)
    ensures At(im, s, n, u, rest, end) && u.stack == S + [v] && Keeps(t, u, fr)
    ensures Shows(v, ty, r.value.0, clean) && Represented(u, fr, r.value.1)
  {
    hide Reaches, Spans, Represented, Keeps, Shows;
  }

  lemma {:induction false} LeftValue(op: BinOp, left: Outcome<(int, Store)>, r: Expr)
    requires left.Ok? && IsWord(left.value.0)
    ensures BinaryOutcome(op, left, r) == EvalRight(op, left.value.0, r, left.value.1)
  {
  }

  lemma {:induction false} RightSound(op: BinOp, left: bool, r: Expr, fr: Frame)
    requires SoundRight(op, left, r, fr)
    ensures Sound(r, fr) && Reads(op, left, CleanAs(r, TInt, fr))
  {
  }

  lemma {:induction false} CleanAsInt(l: Expr, fr: Frame)
    ensures CleanAs(l, TInt, fr) == (TypeOf(l) != TInt || Clean(l, fr))
  {
  }

  function ResultOf(op: BinOp): Type {
    if IsLogic(op) || IsComparison(op) then TBool else TInt
  }

  /** The outcome of a binary expression, given its left operand's. */
  function BinaryOutcome(op: BinOp, l: Outcome<(int, Store)>, r: Expr): Outcome<(int, Store)>
    requires l.Ok? ==> IsWord(l.value.0)
  {
    match l
    case Ok((a, st)) => EvalRight(op, a, r, st)
    case Err(f) => Outcome.Err(f)
  }

  /** After an operand and its conversion the cursor stands at whatever follows. */
  ghost predicate ConvertedDone(im: Image, s: State, n: nat, t: State, u: State, v: Value, tail: Asm, end: int,
                                fr: Frame, ty: Type, clean: bool, r: Outcome<(int, Store)>) {
    match r
    case Ok((w, st)) =>
      At(im, s, n, u, tail, end) && u.stack == t.stack + [v] && Shows(v, ty, w, clean) && Represented(u, fr, st)
        && Keeps(t, u, fr)
    case Err(f) => Reaches(im.code, s, n, u) && u.status == Failed(f)
  }

  lemma {:induction false} ConvertedAtEnd(im: Image, s: State, n: nat, t: State, u: State, v: Value, end: int,
          fr: Frame, ty: Type, clean: bool, r: Outcome<(int, Store)>)
    requires ConvertedDone(im, s, n, t, u, v, Done, end, fr, ty, clean, r)
    ensures ExprDone(im, s, n, t, t.stack, u, v, end, fr, ty, clean, r)
  {
    hide Run, Get, Read64;
  }

  lemma {:induction false} SimConverted(im: Image, s: State, n: nat, t: State, x: Expr, k: nat, ty: Type, tail: Asm,
          end: int, fr: Frame, st: Store)
    returns (u: State, v: Value)
    requires At(im, s, n, t, Seq(CodeExpr(x, k), ConvIf(TypeOf(x), ty, tail)), end)
    requires WellTyped(x, fr) && Sound(x, fr) && Represented(t, fr, st) && |t.stack| + Need(x) <= MAX_OPERANDS
    ensures ConvertedDone(im, s, n + 1, t, u, v, tail, end, fr, ty, CleanAs(x, ty, fr), Eval(x, st))
    decreases x, 3
  {
    hide Read64, Get, Run, Step, Execute, Reaches, Spans, Loaded, Length, Represented, Keeps, CodeExpr, Eval,
      WellTyped, Sound;
    NeedPositive(x);
    var code := CodeExpr(x, k);
    SpansSeq(im, t.pc, code, ConvIf(TypeOf(x), ty, tail), end);
    var u1, v1 := SimExpr(im, s, n, t, x, k, t.pc + Length(code), fr, st);
    u, v := u1, v1;
    if Eval(x, st).Ok? {
      var (w, st1) := Eval(x, st).value;
      u, v := DoConvIf(im, s, n + 1, u1, TypeOf(x), ty, tail, end, t.stack, v1, w, Clean(x, fr));
      SameStore(u1, u, fr, st1);
      KeepsTrans(t, u1, u, fr);
    }
  }

  lemma {:induction false} SimUnary(im: Image, s: State, n: nat, t: State, op: UnOp, x: Expr, k: nat, end: int,
          fr: Frame, st: Store)
    returns (u: State, v: Value)
    requires At(im, s, n, t, CodeExpr(Unary(op, x), k), end)
    requires WellTyped(Unary(op, x), fr) && Sound(Unary(op, x), fr) && Represented(t, fr, st)
    requires |t.stack| + Need(Unary(op, x)) <= MAX_OPERANDS
    ensures ExprDone(im, s, n + 1, t, t.stack, u, v, end, fr, TypeOf(Unary(op, x)), Clean(Unary(op, x), fr),
      Eval(Unary(op, x), st))
    decreases x, 5
  {
    hide Read64, Get, Run, Step, Execute, Reaches, Spans, Loaded, Length, Represented, Keeps;
    match op
    case UPlus => u, v := SimExpr(im, s, n, t, x, k, end, fr, st);
    case UMinus => u, v := SimMinus(im, s, n, t, x, k, end, fr, st);
    case BitwiseNot => u, v := SimBitNot(im, s, n, t, x, k, end, fr, st);
    case LogicNot => u, v := SimLogicNot(im, s, n, t, x, k, end, fr, st);
  }

  /** What a unary operator makes of its operand's outcome. */
  function UnaryOutcome(op: UnOp, r: Outcome<(int, Store)>): Outcome<(int, Store)>
    requires r.Ok? ==> IsWord(r.value.0)
  {
    match r
    case Ok((w, st)) => Outcome.Ok((ApplyUnary(op, w), st))
    case Err(f) => Outcome.Err(f)
  }

  lemma {:induction false} SimMinus(im: Image, s: State, n: nat, t: State, x: Expr, k: nat, end: int, fr: Frame,
          st: Store)
    returns (u: State, v: Value)
    requires At(im, s, n, t, UnaryTemplate(UMinus, TInt, k, CodeExpr(x, k)), end)
    requires WellTyped(x, fr) && TypeOf(x) == TInt && Sound(x, fr) && Represented(t, fr, st)
    requires |t.stack| + 1 + Need(x) <= MAX_OPERANDS
    ensures ExprDone(im, s, n + 1, t, t.stack, u, v, end, fr, TInt, true, UnaryOutcome(UMinus, Eval(x, st)))
    decreases x, 3
  {
    hide Read64, Get, Run, Step, Execute, Reaches, Spans, Loaded, Length, Represented, Keeps, CodeExpr, Eval,
      WellTyped, Sound, Need;
    var S := t.stack;
    NeedPositive(x);
    var code, tail := CodeExpr(x, k), Ins(Arith(SUB), Done);
    var t1 := DoPush(im, s, n, t, I32, 0, Seq(code, tail), end);
    SameStore(t, t1, fr, st);
    SpansSeq(im, t1.pc, code, tail, end);
    var u1, v1 := SimExpr(im, s, n + 1, t1, x, k, t1.pc + Length(code), fr, st);
    u, v := u1, v1;
    if Eval(x, st).Ok? {
      var (w, st1) := Eval(x, st).value;
      v := Value(I32, ToWord(-Signed(w)));
      assert u1.stack == S + [Value(I32, 0), v1];
      u := DoArith(im, s, n + 2, u1, SUB, Done, end, S, Value(I32, 0), v1, v);
      AtEnd(im, s, n + 3, u, Done, end);
      SameStore(u1, u, fr, st1);
      KeepsTrans(t, t1, u1, fr);
      KeepsTrans(t, u1, u, fr);
      ReachesWeaken(im.code, s, n + 3, n + 2, u);
    }
    ReachesWeaken(im.code, s, n + 2, n + 1, u);
  }

  lemma {:induction false} SimBitNot(im: Image, s: State, n: nat, t: State, x: Expr, k: nat, end: int, fr: Frame,
          st: Store)
    returns (u: State, v: Value)
    requires At(im, s, n, t, UnaryTemplate(BitwiseNot, TypeOf(x), k, CodeExpr(x, k)), end)
    requires WellTyped(x, fr) && IsNumeric(TypeOf(x)) && Sound(x, fr) && Represented(t, fr, st)
    requires |t.stack| + Need(x) <= MAX_OPERANDS
    ensures ExprDone(im, s, n + 1, t, t.stack, u, v, end, fr, TInt, false, UnaryOutcome(BitwiseNot, Eval(x, st)))
    decreases x, 3
  {
    hide Read64, Get, Run, Step, Execute, Reaches, Spans, Loaded, Length, Represented, Keeps, CodeExpr, Eval,
      WellTyped, Sound;
    var S := t.stack;
    NeedPositive(x);
    var code, rest := CodeExpr(x, k), Ins(Not, Done);
    SpansSeq(im, t.pc, code, ConvIf(TypeOf(x), TInt, rest), end);
    var u1, v1 := SimExpr(im, s, n, t, x, k, t.pc + Length(code), fr, st);
    u, v := u1, v1;
    if Eval(x, st).Ok? {
      var (w, st1) := Eval(x, st).value;
      var u2, v2 := DoConvIf(im, s, n + 1, u1, TypeOf(x), TInt, rest, end, S, v1, w, Clean(x, fr));
      v := Value(I32, W64 - 1 - v2.raw % W64);
      u := DoNot(im, s, n + 1, u2, Done, end, S, v2);
      AtEnd(im, s, n + 2, u, Done, end);
      SameStore(u1, u, fr, st1);
      KeepsTrans(t, u1, u, fr);
      ReachesWeaken(im.code, s, n + 2, n + 1, u);
      NotWord(v2.raw, w);
    }
  }

  lemma {:induction false} NotWord(raw: nat, w: int)
    requires raw % W32 == w
    ensures (W64 - 1 - raw % W64) % W32 == ToWord(-Signed(w) - 1)
  {
    Mod64Then32(raw);
    assert (W64 - 1 - raw % W64) % W32 == W32 - 1 - w;
  }

  /** Where the pieces of a conditional value lie: a jump target and a join point. */
  lemma {:induction false} SpansValueThenJump(im: Image, at: int, x: int, l: Label, join: Label, y: int, end: int)
    requires Spans(im, at, Ins(Push(UI32, x), Ins(Jmp(join), Def(l, Ins(Push(UI32, y), Def(join, Done))))), end)
    ensures l in im.labels && IsWord(im.labels[l]) && Spans(im, im.labels[l], Ins(Push(UI32, y), Def(join, Done)), end)
    ensures join in im.labels && im.labels[join] == end && IsWord(end)
  {
    SpansIns(im, at, Push(UI32, x), Ins(Jmp(join), Def(l, Ins(Push(UI32, y), Def(join, Done)))), end);
    SpansIns(im, at + 6, Jmp(join), Def(l, Ins(Push(UI32, y), Def(join, Done))), end);
    SpansDef(im, at + 11, l, Ins(Push(UI32, y), Def(join, Done)), end);
    SpansIns(im, at + 11, Push(UI32, y), Def(join, Done), end);
    SpansDef(im, at + 17, join, Done, end);
  }

  /** push x; jmp join; l: push y; join: — from the top it leaves x, from l it leaves y. */
  lemma {:induction false} DoValueThenJump(im: Image, s: State, n: nat, t: State, fromTop: bool, x: int, l: Label,
          join: Label, y: int, at: int, end: int)
    returns (u: State)
    requires Spans(im, at, Ins(Push(UI32, x), Ins(Jmp(join), Def(l, Ins(Push(UI32, y), Def(join, Done))))), end)
    requires t.status == Running && Reaches(im.code, s, n, t) && |t.stack| < MAX_OPERANDS
    requires l in im.labels && t.pc == (if fromTop then at else im.labels[l])
    requires IsWord(x) && IsWord(y)
    ensures u == t.(pc := end, stack := t.stack + [Value(UI32, if fromTop then x else y)])
    ensures u.status == Running && Reaches(im.code, s, n + 1, u)
  {
    hide Run, Step, Execute, Reaches, Loaded, Length;
    SpansValueThenJump(im, at, x, l, join, y, end);
    if fromTop {
      var t1 := DoPush(im, s, n, t, UI32, x, Ins(Jmp(join), Def(l, Ins(Push(UI32, y), Def(join, Done)))), end);
      u := DoJmp(im, s, n + 1, t1, join, Def(l, Ins(Push(UI32, y), Def(join, Done))), end);
      ReachesWeaken(im.code, s, n + 2, n + 1, u);
    } else {
      u := DoPush(im, s, n, t, UI32, y, Def(join, Done), end);
      AtEnd(im, s, n + 1, u, Def(join, Done), end);
    }
  }

  lemma {:induction false} SimLogicNot(im: Image, s: State, n: nat, t: State, x: Expr, k: nat, end: int, fr: Frame,
          st: Store)
    returns (u: State, v: Value)
    requires At(im, s, n, t, UnaryTemplate(LogicNot, TBool, k, CodeExpr(x, k + 2)), end)
    requires WellTyped(x, fr) && TypeOf(x) == TBool && Sound(x, fr) && Represented(t, fr, st)
    requires |t.stack| + Need(x) <= MAX_OPERANDS
    ensures ExprDone(im, s, n + 1, t, t.stack, u, v, end, fr, TBool, true, UnaryOutcome(LogicNot, Eval(x, st)))
    decreases x, 4
  {
    hide Read64, Get, Run, Step, Execute, Reaches, Spans, Loaded, Length, Represented, Keeps, CodeExpr, WellTyped,
      Sound;
    var isTrue, join := CodeLabel(LogicalNotTrueKind, k), CodeLabel(LogicalNotEndKind, k + 1);
    var code := CodeExpr(x, k + 2);
    var tail := Ins(Push(UI32, 0), Ins(Jmp(join), Def(isTrue, Ins(Push(UI32, 1), Def(join, Done)))));
    var mid := t.pc + Length(code);
    SpansSeq(im, t.pc, code, Ins(Jez(isTrue), tail), end);
    SpansIns(im, mid, Jez(isTrue), tail, end);
    SpansValueThenJump(im, mid + 5, 0, isTrue, join, 1, end);
    NeedPositive(x);
    var u1 := SimCondition(im, s, n, t, x, k + 2, true, isTrue, tail, end, fr, st);
    u, v := u1, Value(UI32, 0);
    if Eval(x, st).Ok? {
      var (w, st1) := Eval(x, st).value;
      u, v := FinishFlag(im, s, n + 1, u1, w != 0, 0, isTrue, join, 1, end, fr, st1);
      KeepsTrans(t, u1, u, fr);
      ReachesWeaken(im.code, s, n + 2, n + 1, u);
    }
  }

  /** DoValueThenJump from either of its entries. */
  lemma {:induction false} FinishFlag(im: Image, s: State, n: nat, t: State, fromTop: bool, x: int, l: Label,
          join: Label, y: int, end: int, fr: Frame, st: Store)
    returns (u: State, v: Value)
    requires l in im.labels && t.status == Running && Reaches(im.code, s, n, t) && |t.stack| < MAX_OPERANDS
    requires 0 <= x <= 1 && 0 <= y <= 1 && Represented(t, fr, st)
    requires exists at ::
      Spans(im, at, Ins(Push(UI32, x), Ins(Jmp(join), Def(l, Ins(Push(UI32, y), Def(join, Done))))), end)
                          && t.pc == (if fromTop then at else im.labels[l])
    ensures ExprDone(im, s, n + 1, t, t.stack, u, v, end, fr, TBool, true, Outcome.Ok((if fromTop then x else y, st)))
  {
    hide Read64, Get, Run, Step, Execute, Reaches, Spans, Loaded, Length, Represented, Keeps;
    var at :| Spans(im, at, Ins(Push(UI32, x), Ins(Jmp(join), Def(l, Ins(Push(UI32, y), Def(join, Done))))), end)
              && t.pc == (if fromTop then at else im.labels[l]);
    u := DoValueThenJump(im, s, n, t, fromTop, x, l, join, y, at, end);
    v := Value(UI32, if fromTop then x else y);
    SameStore(t, u, fr, st);
  }

  /** The word of a local, fetched through its address: leaves the address and the word. */
  lemma {:induction false} DoFetch(im: Image, s: State, n: nat, t: State, slot: int, ty: Type, rest: Asm, end: int,
          fr: Frame, st: Store)
    returns (u: State)
    requires At(im, s, n, t, Ins(AddrL(slot), Ins(Dup(0), Ins(Load(AsmTy(ty)), rest))), end)
    requires SlotOk(slot, fr) && Represented(t, fr, st) && |t.stack| + 2 <= MAX_OPERANDS
    ensures IsWord(t.fp + 8 * slot) && InPtr(t, t.fp + 8 * slot)
    ensures u == t.(pc := u.pc, stack := t.stack + [Value(PTR, t.fp + 8 * slot), Value(AsmTy(ty), Fetch(st, slot))])
    ensures At(im, s, n + 3, u, rest, end)
  {
    hide Read64, Get, Run, Step, Execute, Reaches, Spans, Loaded, Length, Represented, Keeps, Read32, Write32;
    CellHolds(t, fr, st, slot);
    var T, a := AsmTy(ty), t.fp + 8 * slot;
    var p := Value(PTR, a);
    var t1 := DoAddrL(im, s, n, t, slot, a, Ins(Dup(0), Ins(Load(T), rest)), end);
    var t2 := DoDup(im, s, n + 1, t1, 0, Ins(Load(T), rest), end);
    u := DoLoad(im, s, n + 2, t2, T, rest, end, t.stack + [p], p);
  }

  /** Storing a word through the address of a local. */
  lemma {:induction false} DoPut(im: Image, s: State, n: nat, t: State, t0: State, slot: int, v: Value, w: int,
          rest: Asm, end: int, fr: Frame, st: Store, S: seq<Value>)
    returns (u: State)
    requires At(im, s, n, t, Ins(Store, rest), end) && SlotOk(slot, fr) && Represented(t0, fr, st) && IsWord(w)
    requires t == t0.(pc := t.pc, stack := t.stack) && IsWord(t0.fp + 8 * slot)
    requires t.stack == S + [Value(PTR, t0.fp + 8 * slot), v] && Low(v) == w && !IsWide(v.ty)
    ensures At(im, s, n + 1, u, rest, end)
    ensures u.stack == S && Represented(u, fr, st[slot := w]) && Keeps(t0, u, fr)
  {
    hide Read64, Get, Run, Step, Execute, Reaches, Spans, Loaded, Length, Represented, Keeps, Read32, Write32;
    CellHolds(t0, fr, st, slot);
    u := DoStore(im, s, n, t, rest, end, S, Value(PTR, t0.fp + 8 * slot), v);
    CellStore32(t0.mem, t0.fp + 8 * slot, w);
    SlotWrite(t0, u, fr, st, slot, w + W32 * Read32(t0.mem, t0.fp + 8 * slot + 4), w);
  }

  /** ++x and --x, as an operand. */
  lemma {:induction false} SimPrefix(im: Image, s: State, n: nat, t: State, up: bool, slot: int, ty: Type, end: int,
          fr: Frame, st: Store)
    returns (u: State, v: Value)
    requires At(im, s, n, t, IncDecTemplate(true, up, slot, ty), end)
    requires SlotOk(slot, fr) && IsNumeric(ty) && Represented(t, fr, st) && |t.stack| + 4 <= MAX_OPERANDS
    ensures ExprDone(im, s, n + 1, t, t.stack, u, v, end, fr, ty, true, Eval(IncDec(true, up, slot, ty), st))
  {
    hide Read64, Get, Run, Step, Execute, Reaches, Spans, Loaded, Length, Represented, Keeps;
    var S, w, T := t.stack, Fetch(st, slot), AsmTy(ty);
    var op, w1 := if up then ADD else SUB, Bumped(w, up);
    var x, x1, one := Value(T, w), Value(T, w1), Value(T, 1);
    BumpValue(ty, w, up);
    var tail := Ins(Dup(0), Ins(RotU(3), Ins(Store, Done)));
    var t3 := DoFetch(im, s, n, t, slot, ty, Ins(Push(T, 1), Ins(Arith(op), tail)), end, fr, st);
    var p := Value(PTR, t.fp + 8 * slot);
    var t4 := DoPush(im, s, n + 3, t3, T, 1, Ins(Arith(op), tail), end);
    assert t4.stack == S + [p] + [x, one];
    var t5 := DoArith(im, s, n + 4, t4, op, tail, end, S + [p], x, one, x1);
    var t6 := DoDup(im, s, n + 5, t5, 0, Ins(RotU(3), Ins(Store, Done)), end);
    assert t6.stack == S + [p, x1, x1];
    var t7 := DoRotU3(im, s, n + 6, t6, Ins(Store, Done), end, S, p, x1, x1);
    assert t7.stack == S + [x1] + [p, x1];
    u := DoPut(im, s, n + 7, t7, t, slot, x1, w1, Done, end, fr, st, S + [x1]);
    v := x1;
    AtEnd(im, s, n + 8, u, Done, end);
    ReachesWeaken(im.code, s, n + 8, n + 1, u);
  }

  /** x++ and x--, as an operand. */
  lemma {:induction false} SimPostfix(im: Image, s: State, n: nat, t: State, up: bool, slot: int, ty: Type, end: int,
          fr: Frame, st: Store)
    returns (u: State, v: Value)
    requires At(im, s, n, t, IncDecTemplate(false, up, slot, ty), end)
    requires SlotOk(slot, fr) && IsNumeric(ty) && Represented(t, fr, st) && |t.stack| + 4 <= MAX_OPERANDS
    ensures ExprDone(im, s, n + 1, t, t.stack, u, v, end, fr, ty, true, Eval(IncDec(false, up, slot, ty), st))
  {
    hide Read64, Get, Run, Step, Execute, Reaches, Spans, Loaded, Length, Represented, Keeps, At, Apply, InPtr;
    var S, w, T := t.stack, Fetch(st, slot), AsmTy(ty);
    var op, w1 := if up then ADD else SUB, Bumped(w, up);
    var x, x1, one := Value(T, w), Value(T, w1), Value(T, 1);
    BumpValue(ty, w, up);
    var tail := Ins(Push(T, 1), Ins(Arith(op), Ins(Store, Done)));
    var t3 := DoFetch(im, s, n, t, slot, ty, Ins(Swap, Ins(Dup(1), tail)), end, fr, st);
    var p := Value(PTR, t.fp + 8 * slot);
    var t4 := DoSwap(im, s, n + 3, t3, Ins(Dup(1), tail), end, S, p, x);
    var t5 := DoDup(im, s, n + 4, t4, 1, tail, end);
    var t6 := DoPush(im, s, n + 5, t5, T, 1, Ins(Arith(op), Ins(Store, Done)), end);
    assert t6.stack == S + [x, p] + [x, one];
    var t7 := DoArith(im, s, n + 6, t6, op, Ins(Store, Done), end, S + [x, p], x, one, x1);
    assert t7.stack == S + [x] + [p, x1];
    u := DoPut(im, s, n + 7, t7, t, slot, x1, w1, Done, end, fr, st, S + [x]);
    v := x;
    AtEnd(im, s, n + 8, u, Done, end);
    ReachesWeaken(im.code, s, n + 8, n + 1, u);
  }

  /** The rest of a binary operator, with the left operand on the stack. */
  lemma {:induction false} SimRight(im: Image, s: State, n: nat, t: State, op: BinOp, left: Type, r: Expr, k: nat,
          end: int, fr: Frame, st: Store, S: seq<Value>, x: Value, a: int, clean: bool)
    returns (u: State, v: Value)
    requires At(im, s, n, t, CodeRight(op, left, r, k), end) && t.stack == S + [x]
    requires Shows(x, left, a, clean) && (left != TInt ==> clean)
    requires WellTyped(r, fr) && BinaryAccepts(op, left, TypeOf(r)) && Represented(t, fr, st)
    requires Sound(r, fr) && Reads(op, left != TInt || clean, CleanAs(r, TInt, fr))
    requires |S| + NeedRight(op, r) <= MAX_OPERANDS
    ensures ExprDone(im, s, n + 1, t, S, u, v, end, fr, ResultOf(op),
                     CleanResult(op, left != TInt || clean, CleanAs(r, TInt, fr)), EvalRight(op, a, r, st))
    decreases r, 5
  {
    hide Read64, Get, Run, Step, Execute, Reaches, Spans, Loaded, Length, Represented, Keeps, CodeExpr, Eval,
      WellTyped, Sound, CleanAs, Need;
    if IsLogic(op) {
      u, v := SimLogic(im, s, n, t, op, r, k, end, fr, st, S, x, a);
    } else {
      u, v := SimArith(im, s, n, t, op, left, r, k, end, fr, st, S, x, a, clean);
    }
  }

  lemma {:induction false} SimArith(im: Image, s: State, n: nat, t: State, op: BinOp, left: Type, r: Expr, k: nat,
          end: int, fr: Frame, st: Store, S: seq<Value>, x: Value, a: int, clean: bool)
    returns (u: State, v: Value)
    requires At(im, s, n, t, RightTemplate(op, left, TypeOf(r), k, CodeExpr(r, k)), end) && t.stack == S + [x]
    requires !IsLogic(op)
    requires Shows(x, left, a, clean) && (left != TInt ==> clean)
    requires WellTyped(r, fr) && Represented(t, fr, st)
    requires Sound(r, fr) && Reads(op, left != TInt || clean, CleanAs(r, TInt, fr))
    requires |S| + 1 + Need(r) <= MAX_OPERANDS
    ensures ExprDone(im, s, n + 1, t, S, u, v, end, fr, ResultOf(op),
                     CleanResult(op, left != TInt || clean, CleanAs(r, TInt, fr)), ArithOutcome(op, a, Eval(r, st)))
    decreases r, 4
  {
    hide Read64, Get, Run, Step, Execute, Reaches, Spans, Loaded, Length, Represented, Keeps, CodeExpr, Eval,
      WellTyped, Sound, CleanAs, Need, ExprDone;
    NeedPositive(r);
    var last := Ins(Arith(Operator(op)), Done);
    var t1, x1 := DoConvIf(im, s, n, t, left, TInt, Seq(CodeExpr(r, k), ConvIf(TypeOf(r), TInt, last)), end, S, x, a,
      clean);
    SameStore(t, t1, fr, st);
    var u1, y := SimConverted(im, s, n, t1, r, k, TInt, last, end, fr, st);
    var cx, cy := left != TInt || clean, CleanAs(r, TInt, fr);
    if Eval(r, st).Ok? {
      var (b, st1) := Eval(r, st).value;
      u, v := SimOperator(im, s, n + 1, u1, op, end, fr, st1, S, x1, y, a, b, cx, cy);
      KeepsTrans(t, t1, u1, fr);
      Prefixed(im, s, n + 2, n + 1, t, u1, S, u, v, end, fr, ResultOf(op), CleanResult(op, cx, cy),
        ApplyOutcome(op, a, b, st1));
    } else {
      u, v := u1, y;
      Raises(im, s, n + 1, t, S, u, v, end, fr, ResultOf(op), CleanResult(op, cx, cy), Eval(r, st).fault);
    }
  }

  lemma {:induction false} Raises(im: Image, s: State, n: nat, t: State, S: seq<Value>, u: State, v: Value, end: int,
               fr: Frame, ty: Type, clean: bool, f: Fault)
    requires Reaches(im.code, s, n, u) && u.status == Failed(f)
    ensures ExprDone(im, s, n, t, S, u, v, end, fr, ty, clean, Outcome.Err(f))
  {
  }

  function ApplyOutcome(op: BinOp, a: int, b: int, st: Store): Outcome<(int, Store)>
    requires IsWord(a) && IsWord(b)
  {
    match ApplyOp(op, a, b)
    case Ok(w) => Outcome.Ok((w, st))
    case Err(f) => Outcome.Err(f)
  }

  /** The outcome of a strict operator, given its right operand's. */
  function ArithOutcome(op: BinOp, a: int, r: Outcome<(int, Store)>): Outcome<(int, Store)>
    requires IsWord(a) && (r.Ok? ==> IsWord(r.value.0))
  {
    match r
    case Ok((b, st)) => ApplyOutcome(op, a, b, st)
    case Err(f) => Outcome.Err(f)
  }

  lemma {:induction false} SimOperator(im: Image, s: State, n: nat, t: State, op: BinOp, end: int, fr: Frame, st: Store,
                    S: seq<Value>, x: Value, y: Value, a: int, b: int, cx: bool, cy: bool)
    returns (u: State, v: Value)
    requires At(im, s, n, t, Ins(Arith(Operator(op)), Done), end) && t.stack == S + [x] + [y]
    requires !IsLogic(op) && Shows(x, TInt, a, cx) && Shows(y, TInt, b, cy) && Reads(op, cx, cy)
    requires |S| < MAX_OPERANDS && Represented(t, fr, st)
    ensures ExprDone(im, s, n + 1, t, S, u, v, end, fr, ResultOf(op), CleanResult(op, cx, cy),
      ApplyOutcome(op, a, b, st))
  {
    hide Read64, Get, Run, Step, Execute, Reaches, Spans, Loaded, Length, Represented, Keeps, Apply;
    OperatorAgrees(op, x, y, a, b, cx, cy);
    assert t.stack == S + [x, y];
    match ApplyOp(op, a, b)
    case Ok(w) =>
      v := Apply(Operator(op), x, y).value;
      u := DoArith(im, s, n, t, Operator(op), Done, end, S, x, y, v);
      AtEnd(im, s, n + 1, u, Done, end);
      SameStore(t, u, fr, st);
    case Err(f) =>
      v := x;
      u := DoArithFails(im, s, n, t, Operator(op), Done, end, S, x, y, f);
  }

  /** && and ||: the left operand decides, or the right one does. */
  lemma {:induction false} SpansLogic(im: Image, at: int, decisive: bool, decided: Label, join: Label, code: Asm,
          end: int)
    requires Spans(im, at, LogicTemplate(decisive, decided, join, code), end)
    ensures var tail := Ins(Push(UI32, Flag(!decisive)),
      Ins(Jmp(join), Def(decided, Ins(Push(UI32, Flag(decisive)), Def(join, Done)))));
            && Spans(im, at + 5, code, at + 5 + Length(code))
            && Spans(im, at + 5 + Length(code), Ins(Branch(decisive, decided), tail), end)
            && Spans(im, at + 10 + Length(code), tail, end)
            && decided in im.labels && IsWord(im.labels[decided])
  {
    hide Loaded, Spans, Length;
    var tail := Ins(Push(UI32, Flag(!decisive)),
      Ins(Jmp(join), Def(decided, Ins(Push(UI32, Flag(decisive)), Def(join, Done)))));
    var b := Branch(decisive, decided);
    SpansIns(im, at, b, Seq(code, Ins(b, tail)), end);
    SpansSeq(im, at + 5, code, Ins(b, tail), end);
    SpansIns(im, at + 5 + Length(code), b, tail, end);
    SpansValueThenJump(im, at + 10 + Length(code), Flag(!decisive), decided, join, Flag(decisive), end);
  }

  function LogicOutcome(op: BinOp, a: int, r: Expr, st: Store): Outcome<(int, Store)>
    requires IsLogic(op)
  {
    if (a != 0) == (op == LogicOr) then Outcome.Ok((Flag(op == LogicOr), st))
    else
      match Eval(r, st)
      case Ok((b, st1)) => Outcome.Ok((Flag(b != 0), st1))
      case Err(f) => Outcome.Err(f)
  }

  lemma {:induction false} SimLogic(im: Image, s: State, n: nat, t: State, op: BinOp, r: Expr, k: nat, end: int,
                                    fr: Frame, st: Store, S: seq<Value>, x: Value, a: int)
    returns (u: State, v: Value)
    requires IsLogic(op) && At(im, s, n, t, CodeRight(op, TBool, r, k), end) && t.stack == S + [x]
    requires Shows(x, TBool, a, true)
    requires WellTyped(r, fr) && TypeOf(r) == TBool && Represented(t, fr, st) && Sound(r, fr)
    requires |S| + Max(1, Need(r)) <= MAX_OPERANDS
    ensures ExprDone(im, s, n + 1, t, S, u, v, end, fr, TBool, true, LogicOutcome(op, a, r, st))
    decreases r, 4
  {
    hide Read64, Get, Run, Step, Execute, Reaches, Spans, Loaded, Length, Represented, Keeps, CodeExpr, Eval,
      WellTyped, Sound, Clean, ExprDone, Need;
    var decisive := op == LogicOr;
    var decided := CodeLabel(if decisive then LogicalOrTrueKind else LogicalAndFalseKind, k);
    var join := CodeLabel(if decisive then LogicalOrEndKind else LogicalAndEndKind, k + 1);
    var code := CodeExpr(r, k + 2);
    var tail := Ins(Push(UI32, Flag(!decisive)),
      Ins(Jmp(join), Def(decided, Ins(Push(UI32, Flag(decisive)), Def(join, Done)))));
    var b1 := Branch(decisive, decided);
    assert CodeRight(op, TBool, r, k) == LogicTemplate(decisive, decided, join, code);
    var mid := t.pc + 5 + Length(code);
    SpansLogic(im, t.pc, decisive, decided, join, code, end);
    var t1 := DoBranch(im, s, n, t, !decisive, decided, Seq(code, Ins(b1, tail)), end, S, x);
    SameStore(t, t1, fr, st);
    if (a != 0) == decisive {
      u, v := FinishFlag(im, s, n + 1, t1, false, Flag(!decisive), decided, join, Flag(decisive), end, fr, st);
      Prefixed(im, s, n + 2, n + 1, t, t1, S, u, v, end, fr, TBool, true, Outcome.Ok((Flag(decisive), st)));
    } else {
      var u1 := SimCondition(im, s, n + 1, t1, r, k + 2, !decisive, decided, tail, end, fr, st);
      if Eval(r, st).Ok? {
        var (b, st1) := Eval(r, st).value;
        KeepsTrans(t, t1, u1, fr);
        u, v := FinishFlag(im, s, n + 2, u1, (b != 0) != decisive, Flag(!decisive), decided, join, Flag(decisive), end,
          fr, st1);
        Prefixed(im, s, n + 3, n + 1, t, u1, S, u, v, end, fr, TBool, true, Outcome.Ok((Flag(b != 0), st1)));
      } else {
        u, v := u1, x;
        ReachesWeaken(im.code, s, n + 2, n + 1, u);
        Raises(im, s, n + 1, t, S, u, v, end, fr, TBool, true, Eval(r, st).fault);
      }
    }
  }

  /** The outcome of a ternary, given its condition's. */
  function Chosen(c: Outcome<(int, Store)>, x: Expr, y: Expr): Outcome<(int, Store)> {
    match c
    case Ok((b, st)) => if b != 0 then Eval(x, st) else Eval(y, st)
    case Err(f) => Outcome.Err(f)
  }

  lemma {:induction false} SimTernary(im: Image, s: State, n: nat, t: State, c: Expr, x: Expr, y: Expr, k: nat,
          end: int, fr: Frame, st: Store)
    returns (u: State, v: Value)
    requires At(im, s, n, t, TernaryTemplate(k, TypeOf(x), TypeOf(y), CodeExpr(c, k + 2),
                                             CodeExpr(x, k + 2 + LabelsOf(c) + LabelsOf(y)),
                                               CodeExpr(y, k + 2 + LabelsOf(c))), end)
    requires WellTyped(c, fr) && WellTyped(x, fr) && WellTyped(y, fr) && TypeOf(c) == TBool
    requires Sound(c, fr) && Sound(x, fr) && Sound(y, fr) && Represented(t, fr, st)
    requires |t.stack| + Max(Need(c), Max(Need(x), Need(y))) <= MAX_OPERANDS
    ensures ExprDone(im, s, n + 1, t, t.stack, u, v, end, fr, TernaryType(TypeOf(x), TypeOf(y)),
                     CleanAs(x, TernaryType(TypeOf(x), TypeOf(y)), fr)
                       && CleanAs(y, TernaryType(TypeOf(x), TypeOf(y)), fr),
                     Chosen(Eval(c, st), x, y))
    decreases Ternary(c, x, y), 0
  {
    hide Read64, Get, Run, Step, Execute, Reaches, Spans, Loaded, Length, Represented, Keeps, CodeExpr, Eval,
      WellTyped, Sound, Clean, CleanAs, TernaryTemplate, TernaryType, Need, ExprDone;
    var S, ty := t.stack, TernaryType(TypeOf(x), TypeOf(y));
    NeedPositive(c); NeedPositive(x); NeedPositive(y);
    var ky := k + 2 + LabelsOf(c);
    var isTrue, join := CodeLabel(TernaryTrueKind, k), CodeLabel(TernaryEndKind, k + 1);
    var cc, cx, cy := CodeExpr(c, k + 2), CodeExpr(x, ky + LabelsOf(y)), CodeExpr(y, ky);
    var toElse := Ins(Jmp(join), Def(isTrue, Seq(cx, ConvIf(TypeOf(x), ty, Def(join, Done)))));
    SpansTernary(im, t.pc, k, TypeOf(x), TypeOf(y), cc, cx, cy, end);
    var u1 := SimCondition(im, s, n, t, c, k + 2, false, isTrue, Seq(cy, ConvIf(TypeOf(y), ty, toElse)), end, fr, st);
    if Eval(c, st).Ok? {
      var (b, st1) := Eval(c, st).value;
      var z, kz := if b != 0 then x else y, if b != 0 then ky + LabelsOf(y) else ky;
      u, v := SimBranch(im, s, n + 1, u1, z, kz, ty, join, if b != 0 then Def(join, Done) else toElse, end, fr, st1);
      Prefixed(im, s, n + 2, n + 1, t, u1, S, u, v, end, fr, ty, CleanAs(z, ty, fr), Eval(z, st1));
      CleanBoth(im, s, n + 1, t, S, u, v, end, fr, ty, CleanAs(z, ty, fr), CleanAs(x, ty, fr) && CleanAs(y, ty, fr),
        Eval(z, st1));
    } else {
      u, v := u1, Value(UI32, 0);
      Raises(im, s, n + 1, t, S, u, v, end, fr, ty, CleanAs(x, ty, fr) && CleanAs(y, ty, fr), Eval(c, st).fault);
    }
  }

  lemma {:induction false} CleanBoth(im: Image, s: State, n: nat, t: State, S: seq<Value>, u: State, v: Value, end: int,
                  fr: Frame, ty: Type, clean: bool, both: bool, r: Outcome<(int, Store)>)
    requires ExprDone(im, s, n, t, S, u, v, end, fr, ty, clean, r) && (both ==> clean)
    ensures ExprDone(im, s, n, t, S, u, v, end, fr, ty, both, r)
  {
    hide Run, Get, Read64;
  }

  /** A condition has been computed and popped by the branch that follows it. */
  ghost predicate ConditionDone(im: Image, s: State, n: nat, t: State, u: State, onZero: bool, l: Label, rest: Asm,
          end: int, fr: Frame, r: Outcome<(int, Store)>)
    requires l in im.labels
  {
    match r
    case Ok((w, st)) =>
      && u.status == Running && Reaches(im.code, s, n, u)
      && u.stack == t.stack && Represented(u, fr, st) && Keeps(t, u, fr)
      && if (w == 0) == onZero then u.pc == im.labels[l] else Spans(im, u.pc, rest, end)
    case Err(f) => Reaches(im.code, s, n, u) && u.status == Failed(f)
  }

  /** A bool expression followed by jez (onZero) or jnz. */
  lemma {:induction false} SimCondition(im: Image, s: State, n: nat, t: State, c: Expr, k: nat, onZero: bool, l: Label,
                                        rest: Asm, end: int, fr: Frame, st: Store)
    returns (u: State)
    requires At(im, s, n, t, Seq(CodeExpr(c, k), Ins(if onZero then Jez(l) else Jnz(l), rest)), end)
    requires l in im.labels && IsWord(im.labels[l])
    requires WellTyped(c, fr) && TypeOf(c) == TBool && Sound(c, fr) && Represented(t, fr, st)
    requires |t.stack| + Need(c) <= MAX_OPERANDS
    ensures ConditionDone(im, s, n + 1, t, u, onZero, l, rest, end, fr, Eval(c, st))
    decreases c, 3
  {
    hide Read64, Get, Run, Step, Execute, Reaches, Spans, Loaded, Length, Represented, Keeps, CodeExpr, Eval,
      WellTyped, Sound, Clean, Need;
    var i: Instr<Label> := if onZero then Jez(l) else Jnz(l);
    var code := CodeExpr(c, k);
    SpansSeq(im, t.pc, code, Ins(i, rest), end);
    var u1, v1 := SimExpr(im, s, n, t, c, k, t.pc + Length(code), fr, st);
    u := u1;
    if Eval(c, st).Ok? {
      NonIntIsClean(c, fr);
      u := DoBranch(im, s, n + 1, u1, onZero, l, rest, end, t.stack, v1);
      SameStore(u1, u, fr, Eval(c, st).value.1);
      KeepsTrans(t, u1, u, fr);
      ReachesWeaken(im.code, s, n + 2, n + 1, u);
    }
  }

  lemma {:induction false} SpansTernary(im: Image, at: int, k: nat, x: Type, y: Type, cc: Asm, cx: Asm, cy: Asm,
          end: int)
    requires Spans(im, at, TernaryTemplate(k, x, y, cc, cx, cy), end)
    ensures var isTrue, join, ty := CodeLabel(TernaryTrueKind, k), CodeLabel(TernaryEndKind, k + 1), TernaryType(x, y);
            var thenPart := Seq(cx, ConvIf(x, ty, Def(join, Done)));
            && Spans(im, at, Seq(cc, Ins(Jnz(isTrue), Seq(cy, ConvIf(y, ty, Ins(Jmp(join), Def(isTrue, thenPart)))))),
                 end)
            && isTrue in im.labels && IsWord(im.labels[isTrue]) && Spans(im, im.labels[isTrue], thenPart, end)
            && join in im.labels && im.labels[join] == end && IsWord(end)
  {
    hide Loaded, Spans, Length;
    var isTrue, join, ty := CodeLabel(TernaryTrueKind, k), CodeLabel(TernaryEndKind, k + 1), TernaryType(x, y);
    var thenPart := Seq(cx, ConvIf(x, ty, Def(join, Done)));
    var elsePart := ConvIf(y, ty, Ins(Jmp(join), Def(isTrue, thenPart)));
    SpansSeq(im, at, cc, Ins(Jnz(isTrue), Seq(cy, elsePart)), end);
    SpansIns(im, at + Length(cc), Jnz(isTrue), Seq(cy, elsePart), end);
    SpansSeq(im, at + Length(cc) + 5, cy, elsePart, end);
    var p := SpansAfterConv(im, at + Length(cc) + 5 + Length(cy), y, ty, Ins(Jmp(join), Def(isTrue, thenPart)), end);
    SpansIns(im, p, Jmp(join), Def(isTrue, thenPart), end);
    SpansDef(im, p + 5, isTrue, thenPart, end);
    SpansSeq(im, p + 5, cx, ConvIf(x, ty, Def(join, Done)), end);
    var q := SpansAfterConv(im, p + 5 + Length(cx), x, ty, Def(join, Done), end);
    SpansDef(im, q, join, Done, end);
    SpansDone(im, q, end);
  }

  /** One branch of a ternary, converted to the result type and joined. */
  lemma {:induction false} SimBranch(im: Image, s: State, n: nat, t: State, x: Expr, k: nat, ty: Type, join: Label,
          tail: Asm, end: int, fr: Frame, st: Store)
    returns (u: State, v: Value)
    requires At(im, s, n, t, Seq(CodeExpr(x, k), ConvIf(TypeOf(x), ty, tail)), end)
    requires join in im.labels && im.labels[join] == end && IsWord(end)
    requires tail == Def(join, Done) || (tail.Ins? && tail.i == Jmp(join))
    requires WellTyped(x, fr) && Sound(x, fr) && Represented(t, fr, st) && |t.stack| + Need(x) <= MAX_OPERANDS
    ensures ExprDone(im, s, n + 1, t, t.stack, u, v, end, fr, ty, CleanAs(x, ty, fr), Eval(x, st))
    decreases x, 4
  {
    hide Read64, Get, Run, Step, Execute, Reaches, Spans, Loaded, Length, Represented, Keeps, CodeExpr, Eval,
      WellTyped, Sound, CleanAs;
    var u1, v1 := SimConverted(im, s, n, t, x, k, ty, tail, end, fr, st);
    u, v := u1, v1;
    if Eval(x, st).Ok? {
      if tail.Ins? {
        u := DoJmp(im, s, n + 1, u1, join, tail.rest, end);
        ReachesWeaken(im.code, s, n + 2, n + 1, u);
      } else {
        AtEnd(im, s, n + 1, u, tail, end);
      }
      SameStore(u1, u, fr, Eval(x, st).value.1);
      KeepsTrans(t, u1, u, fr);
    }
  }

  lemma {:induction false} SpansAfterConv(im: Image, at: int, from: Type, to: Type, rest: Asm, end: int)
    returns (p: int)
    requires Spans(im, at, ConvIf(from, to, rest), end)
    ensures p == at + (if AsmTy(from) == AsmTy(to) then 0 else 2)
    ensures Spans(im, p, rest, end)
  {
    p := at + (if AsmTy(from) == AsmTy(to) then 0 else 2);
  }
}
