/** The straight-line pieces of a range loop's code. */
module RangeSimulation {
  import opened Words
  import opened Isa
  import opened FlatMemory
  import opened Arithmetic
  import opened Machine
  import opened Accesses
  import opened Source
  import opened Domain
  import opened CodeGen
  import opened Cursor
  import opened Simulation
  import opened ExprSimulation

  /** An operand of the loop variable's type: a char has a zero high half, an int may not. */
  predicate Numeric(v: Value, ty: Type, w: int) {
    v.ty == AsmTy(ty) && Low(v) == w && (ty != TInt ==> v.raw == w)
  }

  /** What a range loop keeps on the operand stack: is-positive (when a step is written), step, end,
      address of the loop variable, current value. */
  datatype Items = Items(pos: Value, step: Value, end: Value, addr: Value, cur: Value)

  function Fixed(step: Option<Expr>, pos: Value, d: Value): seq<Value> {
    if step.Some? then [pos, d] else [d]
  }

  function OnStack(S: seq<Value>, step: Option<Expr>, it: Items): seq<Value> {
    S + Fixed(step, it.pos, it.step) + [it.end, it.addr, it.cur]
  }

  predicate StepOk(step: Option<Expr>, ty: Type, pos: Value, d: Value, dw: int) {
    Numeric(d, ty, dw) && IsWord(dw) && dw != 0 && pos == Truth(Key(ty, dw) >= 0) && (step.None? ==> dw == 1)
  }

  predicate ItemsOk(t: State, slot: int, ty: Type, step: Option<Expr>, it: Items, dw: int, ew: int, cw: int) {
    && StepOk(step, ty, it.pos, it.step, dw)
    && Numeric(it.end, ty, ew) && Numeric(it.cur, ty, cw)
    && IsWord(t.fp + 8 * slot) && it.addr == Value(PTR, t.fp + 8 * slot)
  }

  // ---------------------------------------------------------------- step and bounds

  ghost predicate StepDone(im: Image, s: State, n: nat, t: State, u: State, step: Option<Expr>, ty: Type, pos: Value,
          d: Value, rest: Asm, end: int, fr: Frame, r: Outcome<(int, Store)>) {
    match r
    case Ok((dw, st)) =>
      if dw == 0 then Reaches(im.code, s, n, u) && u.status == Failed(ZeroStep)
      else
        && At(im, s, n, u, rest, end) && u.stack == t.stack + Fixed(step, pos, d) && StepOk(step, ty, pos, d, dw)
        && Represented(u, fr, st) && Keeps(t, u, fr)
    case Err(f) => Reaches(im.code, s, n, u) && u.status == Failed(f)
  }

  lemma {:induction false} NumericFromShows(e: Expr, ty: Type, v: Value, w: int, fr: Frame)
    requires WellTyped(e, fr) && Sound(e, fr) && Convertible(TypeOf(e), ty) && IsNumeric(ty)
    requires Shows(v, ty, w, CleanAs(e, ty, fr))
    ensures Numeric(v, ty, w)
  {
    if ty != TInt && TypeOf(e) != TInt {
      NonIntIsClean(e, fr);
    }
  }

  lemma {:induction false} DoForStep(im: Image, s: State, n: nat, t: State, ty: Type, step: Option<Expr>, k: nat,
          rest: Asm, end: int, fr: Frame, st: Store)
    returns (u: State, pos: Value, d: Value)
    requires At(im, s, n, t, CodeForStep(ty, step, k, rest), end) && IsNumeric(ty) && Represented(t, fr, st)
    requires step.Some? ==> WellTyped(step.value, fr) && Sound(step.value, fr) && Convertible(TypeOf(step.value), ty)
                            && |t.stack| + Need(step.value) <= MAX_OPERANDS
    requires |t.stack| + 3 <= MAX_OPERANDS
    ensures StepDone(im, s, n, t, u, step, ty, pos, d, rest, end, fr, EvalStep(step, st))
  {
    hide Read64, Get, Run, Step, Execute, Reaches, Spans, Loaded, Length, Represented, Keeps, CodeExpr, Eval,
      WellTyped, Sound, CleanAs;
    if step.None? {
      pos, d := Truth(true), Value(AsmTy(ty), 1);
      u := DoPush(im, s, n, t, AsmTy(ty), 1, rest, end);
      SameStore(t, u, fr, st);
      ReachesWeaken(im.code, s, n + 1, n, u);
    } else {
      var sign := Def(StepValid(k), Ins(Dup(0), Ins(Push(AsmTy(ty), 0), Ins(Arith(CGE), Ins(Swap, rest)))));
      var test := Ins(Dup(0), Ins(Jnz(StepValid(k)), Ins(Throw(ZeroRangeStep), sign)));
      var u1;
      u1, d := SimConverted(im, s, n, t, step.value, k + 6, ty, test, end, fr, st);
      u, pos := u1, d;
      if Eval(step.value, st).Ok? {
        var (dw, st1) := Eval(step.value, st).value;
        NumericFromShows(step.value, ty, d, dw, fr);
        pos := Truth(Key(ty, dw) >= 0);
        u := DoStepSign(im, s, n + 1, u1, ty, k, rest, end, t.stack, d, dw);
        if dw != 0 {
          SameStore(u1, u, fr, st1);
          KeepsTrans(t, u1, u, fr);
        }
        ReachesWeaken(im.code, s, n + 2, n, u);
      } else {
        ReachesWeaken(im.code, s, n + 1, n, u);
      }
    }
  }

  /** A zero step raises; otherwise its sign goes below it. */
  lemma {:induction false} StepSign(ty: Type, d: Value, dw: int)
    requires Numeric(d, ty, dw) && IsNumeric(ty)
    ensures Apply(CGE, d, Value(AsmTy(ty), 0)) == Outcome.Ok(Truth(Key(ty, dw) >= 0))
  {
  }

  lemma {:induction false} DoStepSign(im: Image, s: State, n: nat, t: State, ty: Type, k: nat, rest: Asm, end: int,
          S: seq<Value>, d: Value, dw: int)
    returns (u: State)
    requires At(im, s, n, t, Ins(Dup(0), Ins(Jnz(StepValid(k)), Ins(Throw(ZeroRangeStep),
                  Def(StepValid(k), Ins(Dup(0), Ins(Push(AsmTy(ty), 0), Ins(Arith(CGE), Ins(Swap, rest)))))))), end)
    requires t.stack == S + [d] && Numeric(d, ty, dw) && IsNumeric(ty) && |S| + 3 <= MAX_OPERANDS
    ensures dw == 0 ==> Reaches(im.code, s, n + 1, u) && u.status == Failed(ZeroStep)
    ensures dw != 0 ==> At(im, s, n + 1, u, rest, end) && u == t.(pc := u.pc, stack := S + [Truth(Key(ty, dw) >= 0), d])
  {
    hide Run, Step, Execute, Reaches, Spans, Loaded, Length, Apply;
    StepSign(ty, d, dw);
    var zero := Value(AsmTy(ty), 0);
    var tail := Ins(Dup(0), Ins(Push(AsmTy(ty), 0), Ins(Arith(CGE), Ins(Swap, rest))));
    var fail := Ins(Throw(ZeroRangeStep), Def(StepValid(k), tail));
    SpansIns(im, t.pc, Dup(0), Ins(Jnz(StepValid(k)), fail), end);
    SpansIns(im, t.pc + 3, Jnz(StepValid(k)), fail, end);
    SpansIns(im, t.pc + 8, Throw(ZeroRangeStep), Def(StepValid(k), tail), end);
    SpansDef(im, t.pc + 10, StepValid(k), tail, end);
    var t1 := DoDup(im, s, n, t, 0, Ins(Jnz(StepValid(k)), fail), end);
    var t2 := DoBranch(im, s, n + 1, t1, false, StepValid(k), fail, end, S + [d], d);
    if dw == 0 {
      u := DoThrowZeroStep(im, s, n + 2, t2, Def(StepValid(k), tail), end);
      ReachesWeaken(im.code, s, n + 3, n + 1, u);
    } else {
      var t3 := DoDup(im, s, n + 2, t2, 0, Ins(Push(AsmTy(ty), 0), Ins(Arith(CGE), Ins(Swap, rest))), end);
      var t4 := DoPush(im, s, n + 3, t3, AsmTy(ty), 0, Ins(Arith(CGE), Ins(Swap, rest)), end);
      assert t4.stack == S + [d] + [d, zero];
      var t5 := DoArith(im, s, n + 4, t4, CGE, Ins(Swap, rest), end, S + [d], d, zero, Truth(Key(ty, dw) >= 0));
      assert t5.stack == S + [d, Truth(Key(ty, dw) >= 0)];
      u := DoSwap(im, s, n + 5, t5, rest, end, S, d, Truth(Key(ty, dw) >= 0));
      ReachesWeaken(im.code, s, n + 6, n + 1, u);
    }
  }

  lemma {:induction false} DoThrowZeroStep(im: Image, s: State, n: nat, t: State, rest: Asm, end: int)
    returns (u: State)
    requires At(im, s, n, t, Ins(Throw(ZeroRangeStep), rest), end)
    ensures Reaches(im.code, s, n + 1, u) && u.status == Failed(ZeroStep)
  {
    DoIns(im, s, n, t, Throw(ZeroRangeStep), rest, end);
    u := Execute(im.code, After(t, Throw(ZeroRangeStep)), Throw(ZeroRangeStep));
  }

  /** End and start of the range, in the order they are computed. */
  function EvalBounds(a: Expr, b: Expr, st: Store): Outcome<(int, int, Store)> {
    match Eval(b, st)
    case Err(f) => Outcome.Err(f)
    case Ok((ew, st1)) =>
      match Eval(a, st1)
      case Err(f) => Outcome.Err(f)
      case Ok((cw, st2)) => Outcome.Ok((ew, cw, st2))
  }

  ghost predicate BoundsDone(im: Image, s: State, n: nat, t: State, u: State, slot: int, ty: Type, e: Value, c: Value,
                             rest: Asm, end: int, fr: Frame, r: Outcome<(int, int, Store)>) {
    match r
    case Ok((ew, cw, st)) =>
      && At(im, s, n, u, rest, end) && IsWord(t.fp + 8 * slot)
      && u.stack == t.stack + [e] + [Value(PTR, t.fp + 8 * slot)] + [c]
      && Numeric(e, ty, ew) && Numeric(c, ty, cw) && Represented(u, fr, st) && Keeps(t, u, fr)
    case Err(f) => Reaches(im.code, s, n, u) && u.status == Failed(f)
  }

  lemma {:induction false} DoForBounds(im: Image, s: State, n: nat, t: State, slot: int, ty: Type, a: Expr, b: Expr,
          k: nat, rest: Asm, end: int, fr: Frame, st: Store)
    returns (u: State, e: Value, c: Value)
    requires At(im, s, n, t, CodeForBounds(slot, ty, a, b, k, rest), end)
    requires SlotOk(slot, fr) && IsNumeric(ty) && Represented(t, fr, st)
    requires WellTyped(a, fr) && Sound(a, fr) && Convertible(TypeOf(a), ty) && WellTyped(b, fr) && Sound(b, fr)
    requires Convertible(TypeOf(b), ty)
    requires |t.stack| + 2 + Need(a) <= MAX_OPERANDS && |t.stack| + Need(b) <= MAX_OPERANDS
    ensures BoundsDone(im, s, n, t, u, slot, ty, e, c, rest, end, fr, EvalBounds(a, b, st))
  {
    hide Read64, Get, Run, Step, Execute, Reaches, Spans, Loaded, Length, Represented, Keeps, CodeExpr, Eval,
      WellTyped, Sound, CleanAs, Need, Shows, Numeric, At, BoundsDone, StartDone, EvalBounds;
    var tail := Seq(CodeExpr(a, k + LabelsOf(b)), ConvIf(TypeOf(a), ty, rest));
    var u1;
    u1, e := SimConverted(im, s, n, t, b, k, ty, Ins(AddrL(slot), tail), end, fr, st);
    u, c := u1, e;
    if Eval(b, st).Ok? {
      var (ew, st1) := Eval(b, st).value;
      NumericFromShows(b, ty, e, ew, fr);
      KeepsFp(t, u1, fr);
      AtWeaken(im, s, n + 1, n, u1, Ins(AddrL(slot), tail), end);
      u, c := DoForStart(im, s, n, u1, slot, ty, a, k + LabelsOf(b), rest, end, fr, st1);
      BoundsFromStart(im, s, n, t, u1, u, slot, ty, a, b, e, c, rest, end, fr, st);
    } else {
      BoundsFail(im, s, n, t, u, slot, ty, a, b, e, c, rest, end, fr, st);
    }
  }

  lemma {:induction false} BoundsFromStart(im: Image, s: State, n: nat, t: State, u1: State, u: State, slot: int,
          ty: Type, a: Expr, b: Expr, e: Value, c: Value, rest: Asm, end: int, fr: Frame, st: Store)
    requires Eval(b, st).Ok? && Keeps(t, u1, fr) && u1.stack == t.stack + [e] && u1.fp == t.fp
    requires Numeric(e, ty, Eval(b, st).value.0)
    requires StartDone(im, s, n, u1, u, slot, ty, c, rest, end, fr, Eval(a, Eval(b, st).value.1))
    ensures BoundsDone(im, s, n, t, u, slot, ty, e, c, rest, end, fr, EvalBounds(a, b, st))
  {
    hide Read64, Get, Run, Step, Execute, Reaches, Spans, Loaded, Length, Represented, Keeps, FrameOk, IsWord, Eval,
      Numeric, At;
    if Eval(a, Eval(b, st).value.1).Ok? {
      KeepsTrans(t, u1, u, fr);
    }
  }

  lemma {:induction false} BoundsFail(im: Image, s: State, n: nat, t: State, u: State, slot: int, ty: Type, a: Expr,
          b: Expr, e: Value, c: Value, rest: Asm, end: int, fr: Frame, st: Store)
    requires Eval(b, st).Err? && Reaches(im.code, s, n + 1, u) && u.status == Failed(Eval(b, st).fault)
    ensures BoundsDone(im, s, n, t, u, slot, ty, e, c, rest, end, fr, EvalBounds(a, b, st))
  {
    hide Read64, Get, Run, Step, Execute, Reaches, Spans, Loaded, Length, Represented, Keeps, Eval, Numeric;
    ReachesWeaken(im.code, s, n + 1, n, u);
  }

  ghost predicate StartDone(im: Image, s: State, n: nat, t: State, u: State, slot: int, ty: Type, c: Value, rest: Asm,
          end: int, fr: Frame, r: Outcome<(int, Store)>) {
    match r
    case Ok((cw, st)) =>
      && At(im, s, n, u, rest, end) && IsWord(t.fp + 8 * slot)
      && u.stack == t.stack + [Value(PTR, t.fp + 8 * slot)] + [c]
      && Numeric(c, ty, cw) && Represented(u, fr, st) && Keeps(t, u, fr)
    case Err(f) => Reaches(im.code, s, n, u) && u.status == Failed(f)
  }

  lemma {:induction false} DoForStart(im: Image, s: State, n: nat, t: State, slot: int, ty: Type, a: Expr, k: nat,
          rest: Asm, end: int, fr: Frame, st: Store)
    returns (u: State, c: Value)
    requires At(im, s, n, t, Ins(AddrL(slot), Seq(CodeExpr(a, k), ConvIf(TypeOf(a), ty, rest))), end)
    requires SlotOk(slot, fr) && IsNumeric(ty) && Represented(t, fr, st)
    requires WellTyped(a, fr) && Sound(a, fr) && Convertible(TypeOf(a), ty) && |t.stack| + 1 + Need(a) <= MAX_OPERANDS
    ensures StartDone(im, s, n, t, u, slot, ty, c, rest, end, fr, Eval(a, st))
  {
    hide Read64, Get, Run, Step, Execute, Reaches, Spans, Loaded, Length, Represented, Keeps, CodeExpr, Eval,
      WellTyped, Sound, CleanAs, Need;
    CellHolds(t, fr, st, slot);
    NeedPositive(a);
    var t1 := DoAddrL(im, s, n, t, slot, t.fp + 8 * slot, Seq(CodeExpr(a, k), ConvIf(TypeOf(a), ty, rest)), end);
    SameStore(t, t1, fr, st);
    u, c := SimConverted(im, s, n + 1, t1, a, k, ty, rest, end, fr, st);
    if Eval(a, st).Ok? {
      NumericFromShows(a, ty, c, Eval(a, st).value.0, fr);
      KeepsTrans(t, t1, u, fr);
    }
    ReachesWeaken(im.code, s, n + 2, n, u);
  }

  lemma {:induction false} KeepsFp(t: State, u: State, fr: Frame)
    requires Keeps(t, u, fr)
    ensures u.fp == t.fp
  {
  }

  // ---------------------------------------------------------------- one turn

  /** The labels of a loaded range loop and what lies behind them. */
  ghost predicate ForLoaded(im: Image, k: nat, step: Option<Expr>, body: Asm, end: int) {
    && ForStart(k, step) in im.labels && IsWord(im.labels[ForStart(k, step)])
    && Spans(im, im.labels[ForStart(k, step)], CodeForLoop(k, step, body), end)
    && ForContinue(k, step) in im.labels && IsWord(im.labels[ForContinue(k, step)])
    && Spans(im, im.labels[ForContinue(k, step)], CodeForNext(k, step), end)
    && ForEnd(k, step) in im.labels && IsWord(im.labels[ForEnd(k, step)])
    && Spans(im, im.labels[ForEnd(k, step)], CodeForPops(step), end)
    && (step.Some? ==>
          && NegativeStep(k) in im.labels && IsWord(im.labels[NegativeStep(k)])
          && Spans(im, im.labels[NegativeStep(k)], NegativeTest(k, step, body), end)
          && ConditionJoin(k) in im.labels && IsWord(im.labels[ConditionJoin(k)])
          && Spans(im, im.labels[ConditionJoin(k)], CodeForBody(k, step, body), end))
  }

  function CodeForNext(k: nat, step: Option<Expr>): Asm {
    Ins(Dup(3), Ins(Arith(ADD), Ins(Jmp(ForStart(k, step)), Def(ForEnd(k, step), CodeForPops(step)))))
  }

  function NegativeTest(k: nat, step: Option<Expr>, body: Asm): Asm {
    Ins(Arith(CGE), Ins(Jnz(ForEnd(k, step)), Def(ConditionJoin(k), CodeForBody(k, step, body))))
  }

  lemma {:induction false} SpansForBody(im: Image, at: int, k: nat, step: Option<Expr>, body: Asm, end: int)
    requires Spans(im, at, CodeForBody(k, step, body), end)
    ensures ForContinue(k, step) in im.labels && IsWord(im.labels[ForContinue(k, step)])
    ensures Spans(im, im.labels[ForContinue(k, step)], CodeForNext(k, step), end)
    ensures Spans(im, at + 7, Seq(body, Def(ForContinue(k, step), CodeForNext(k, step))), end)
    ensures Spans(im, at + 7, body, im.labels[ForContinue(k, step)])
    ensures ForEnd(k, step) in im.labels && IsWord(im.labels[ForEnd(k, step)])
    ensures Spans(im, im.labels[ForEnd(k, step)], CodeForPops(step), end)
  {
    hide Loaded, Length, Spans, CodeForPops;
    var next := CodeForNext(k, step);
    var tail := Seq(body, Def(ForContinue(k, step), next));
    SpansIns(im, at, Dup(1), Ins(Dup(1), Ins(Store, tail)), end);
    SpansIns(im, at + 3, Dup(1), Ins(Store, tail), end);
    SpansIns(im, at + 6, Store, tail, end);
    SpansSeq(im, at + 7, body, Def(ForContinue(k, step), next), end);
    var p := at + 7 + Length(body);
    SpansDef(im, p, ForContinue(k, step), next, end);
    SpansIns(im, p, Dup(3), Ins(Arith(ADD), Ins(Jmp(ForStart(k, step)), Def(ForEnd(k, step), CodeForPops(step)))), end);
    SpansIns(im, p + 3, Arith(ADD), Ins(Jmp(ForStart(k, step)), Def(ForEnd(k, step), CodeForPops(step))), end);
    SpansIns(im, p + 4, Jmp(ForStart(k, step)), Def(ForEnd(k, step), CodeForPops(step)), end);
    SpansDef(im, p + 9, ForEnd(k, step), CodeForPops(step), end);
  }

  lemma {:induction false} SpansFor(im: Image, at: int, k: nat, step: Option<Expr>, body: Asm, end: int)
    requires Spans(im, at, Def(ForStart(k, step), CodeForLoop(k, step, body)), end)
    ensures ForLoaded(im, k, step, body, end) && im.labels[ForStart(k, step)] == at
  {
    hide Loaded, Length, Spans, CodeForBody, CodeForPops, CodeForNext;
    SpansDef(im, at, ForStart(k, step), CodeForLoop(k, step, body), end);
    var e := ForEnd(k, step);
    var inner := CodeForBody(k, step, body);
    if step.None? {
      SpansIns(im, at, Dup(2), Ins(Dup(1), Ins(Arith(CLE), Ins(Jnz(e), inner))), end);
      SpansIns(im, at + 3, Dup(1), Ins(Arith(CLE), Ins(Jnz(e), inner)), end);
      SpansIns(im, at + 6, Arith(CLE), Ins(Jnz(e), inner), end);
      SpansIns(im, at + 7, Jnz(e), inner, end);
      SpansForBody(im, at + 12, k, step, body, end);
    } else {
      var negative := Def(NegativeStep(k), NegativeTest(k, step, body));
      var positive := Ins(Arith(CLE), Ins(Jnz(e), Ins(Jmp(ConditionJoin(k)), negative)));
      SpansIns(im, at, Dup(2), Ins(Dup(1), Ins(Dup(6), Ins(Jez(NegativeStep(k)), positive))), end);
      SpansIns(im, at + 3, Dup(1), Ins(Dup(6), Ins(Jez(NegativeStep(k)), positive)), end);
      SpansIns(im, at + 6, Dup(6), Ins(Jez(NegativeStep(k)), positive), end);
      SpansIns(im, at + 9, Jez(NegativeStep(k)), positive, end);
      SpansIns(im, at + 14, Arith(CLE), Ins(Jnz(e), Ins(Jmp(ConditionJoin(k)), negative)), end);
      SpansIns(im, at + 15, Jnz(e), Ins(Jmp(ConditionJoin(k)), negative), end);
      SpansIns(im, at + 20, Jmp(ConditionJoin(k)), negative, end);
      SpansDef(im, at + 25, NegativeStep(k), NegativeTest(k, step, body), end);
      SpansIns(im, at + 25, Arith(CGE), Ins(Jnz(e), Def(ConditionJoin(k), inner)), end);
      SpansIns(im, at + 26, Jnz(e), Def(ConditionJoin(k), inner), end);
      SpansDef(im, at + 31, ConditionJoin(k), inner, end);
      SpansForBody(im, at + 31, k, step, body, end);
    }
  }

  /** The loop test: to the body when the current value is in range, to the end label otherwise. */
  lemma {:induction false} DoForTest(im: Image, s: State, n: nat, t: State, slot: int, ty: Type, step: Option<Expr>,
          k: nat, body: Asm, end: int, S: seq<Value>, it: Items, dw: int, ew: int, cw: int)
    returns (u: State)
    requires ForLoaded(im, k, step, body, end) && IsNumeric(ty)
    requires t.status == Running && Reaches(im.code, s, n, t) && t.pc == im.labels[ForStart(k, step)]
    requires t.stack == OnStack(S, step, it) && ItemsOk(t, slot, ty, step, it, dw, ew, cw) && |S| + 8 <= MAX_OPERANDS
    ensures u == t.(pc := u.pc)
    ensures InRange(ty, dw, cw, ew) ==> At(im, s, n + 1, u, CodeForBody(k, step, body), end)
    ensures !InRange(ty, dw, cw, ew) ==>
      u.pc == im.labels[ForEnd(k, step)] && u.status == Running && Reaches(im.code, s, n + 1, u)
  {
    hide Run, Step, Execute, Reaches, Spans, Loaded, Length, CodeForBody, CodeForPops;
    var e := ForEnd(k, step);
    var inner := CodeForBody(k, step, body);
    var B := t.stack;
    if step.None? {
      var t1 := DoDup(im, s, n, t, 2, Ins(Dup(1), Ins(Arith(CLE), Ins(Jnz(e), inner))), end);
      var t2 := DoDup(im, s, n + 1, t1, 1, Ins(Arith(CLE), Ins(Jnz(e), inner)), end);
      assert t2.stack == B + [it.end, it.cur];
      u := DoCompareExit(im, s, n + 2, t2, CLE, e, inner, end, B, ty, it.end, it.cur, ew, cw);
      ReachesWeaken(im.code, s, n + 4, n + 1, u);
    } else {
      var negative := Def(NegativeStep(k), NegativeTest(k, step, body));
      var positive := Ins(Arith(CLE), Ins(Jnz(e), Ins(Jmp(ConditionJoin(k)), negative)));
      var t1 := DoDup(im, s, n, t, 2, Ins(Dup(1), Ins(Dup(6), Ins(Jez(NegativeStep(k)), positive))), end);
      var t2 := DoDup(im, s, n + 1, t1, 1, Ins(Dup(6), Ins(Jez(NegativeStep(k)), positive)), end);
      assert t2.stack == B + [it.end, it.cur];
      var t3 := DoDup(im, s, n + 2, t2, 6, Ins(Jez(NegativeStep(k)), positive), end);
      assert t3.stack == B + [it.end, it.cur] + [it.pos];
      var t4 := DoBranch(im, s, n + 3, t3, true, NegativeStep(k), positive, end, B + [it.end, it.cur], it.pos);
      if Key(ty, dw) >= 0 {
        var t5 := DoCompareExit(im, s, n + 4, t4, CLE, e, Ins(Jmp(ConditionJoin(k)), negative), end, B, ty, it.end,
          it.cur, ew, cw);
        u := t5;
        if InRange(ty, dw, cw, ew) {
          u := DoJmp(im, s, n + 6, t5, ConditionJoin(k), negative, end);
          ReachesWeaken(im.code, s, n + 7, n + 1, u);
        } else {
          ReachesWeaken(im.code, s, n + 6, n + 1, u);
        }
      } else {
        u := DoCompareExit(im, s, n + 4, t4, CGE, e, Def(ConditionJoin(k), inner), end, B, ty, it.end, it.cur, ew, cw);
        if InRange(ty, dw, cw, ew) {
          SpansDef(im, u.pc, ConditionJoin(k), inner, end);
        }
        ReachesWeaken(im.code, s, n + 6, n + 1, u);
      }
    }
  }

  /** Compare end with current and leave the loop when the comparison holds. */
  lemma {:induction false} DoCompareExit(im: Image, s: State, n: nat, t: State, op: ArithOp, l: Label, rest: Asm,
          end: int, B: seq<Value>, ty: Type, x: Value, y: Value, xw: int, yw: int)
    returns (u: State)
    requires (op == CLE || op == CGE) && IsNumeric(ty)
    requires At(im, s, n, t, Ins(Arith(op), Ins(Jnz(l), rest)), end) && t.stack == B + [x, y] && |B| < MAX_OPERANDS
    requires l in im.labels && IsWord(im.labels[l]) && Numeric(x, ty, xw) && Numeric(y, ty, yw)
    ensures u == t.(pc := u.pc, stack := B) && u.status == Running && Reaches(im.code, s, n + 2, u)
    ensures var leave := if op == CLE then Key(ty, xw) <= Key(ty, yw) else Key(ty, xw) >= Key(ty, yw);
            if leave then u.pc == im.labels[l] else At(im, s, n + 2, u, rest, end)
  {
    hide Run, Step, Execute, Reaches, Spans, Loaded, Length;
    var r := Truth(if op == CLE then Key(ty, xw) <= Key(ty, yw) else Key(ty, xw) >= Key(ty, yw));
    var t1 := DoArith(im, s, n, t, op, Ins(Jnz(l), rest), end, B, x, y, r);
    u := DoBranch(im, s, n + 1, t1, false, l, rest, end, B, r);
  }

  /** The current value goes into the loop variable. */
  lemma {:induction false} DoForEnter(im: Image, s: State, n: nat, t: State, slot: int, ty: Type, step: Option<Expr>,
          k: nat, body: Asm, end: int, S: seq<Value>, it: Items, dw: int, ew: int, cw: int, fr: Frame, st: Store)
    returns (u: State)
    requires At(im, s, n, t, CodeForBody(k, step, body), end) && SlotOk(slot, fr) && Represented(t, fr, st)
    requires t.stack == OnStack(S, step, it) && ItemsOk(t, slot, ty, step, it, dw, ew, cw) && |S| + 8 <= MAX_OPERANDS
    ensures At(im, s, n + 3, u, Seq(body, Def(ForContinue(k, step), CodeForNext(k, step))), end)
    ensures u.stack == t.stack && Represented(u, fr, st[slot := cw]) && Keeps(t, u, fr)
  {
    hide Read64, Get, Run, Step, Execute, Reaches, Spans, Loaded, Length, Represented, Keeps, CodeForPops;
    var tail := Seq(body, Def(ForContinue(k, step), CodeForNext(k, step)));
    var t1 := DoDup(im, s, n, t, 1, Ins(Dup(1), Ins(Store, tail)), end);
    var t2 := DoDup(im, s, n + 1, t1, 1, Ins(Store, tail), end);
    assert t2.stack == t.stack + [it.addr, it.cur];
    u := DoPut(im, s, n + 2, t2, t, slot, it.cur, cw, tail, end, fr, st, t.stack);
  }

  /** The step is added to the current value, and control goes back to the test. */
  lemma {:induction false} DoForNext(im: Image, s: State, n: nat, t: State, slot: int, ty: Type, step: Option<Expr>,
          k: nat, end: int, S: seq<Value>, it: Items, dw: int, ew: int, cw: int)
    returns (u: State, it': Items)
    requires At(im, s, n, t, CodeForNext(k, step), end) && IsNumeric(ty)
    requires ForStart(k, step) in im.labels && IsWord(im.labels[ForStart(k, step)])
    requires t.stack == OnStack(S, step, it) && ItemsOk(t, slot, ty, step, it, dw, ew, cw) && |S| + 8 <= MAX_OPERANDS
    ensures u == t.(pc := im.labels[ForStart(k, step)], stack := OnStack(S, step, it'))
    ensures u.status == Running && Reaches(im.code, s, n + 3, u)
    ensures ItemsOk(u, slot, ty, step, it', dw, ew, ToWord(cw + dw))
  {
    hide Run, Step, Execute, Reaches, Spans, Loaded, Length, CodeForPops;
    var rest := Ins(Jmp(ForStart(k, step)), Def(ForEnd(k, step), CodeForPops(step)));
    var B := S + Fixed(step, it.pos, it.step) + [it.end, it.addr];
    var c := Value(AsmTy(ty), ToWord(cw + dw));
    it' := it.(cur := c);
    var t1 := DoDup(im, s, n, t, 3, Ins(Arith(ADD), rest), end);
    assert t1.stack == B + [it.cur, it.step];
    var t2 := DoArith(im, s, n + 1, t1, ADD, rest, end, B, it.cur, it.step, c);
    u := DoJmp(im, s, n + 2, t2, ForStart(k, step), Def(ForEnd(k, step), CodeForPops(step)), end);
    assert B + [c] == OnStack(S, step, it');
  }

  /** The loop's operands are popped: four, or five with a step. */
  lemma {:induction false} DoForPops(im: Image, s: State, n: nat, t: State, step: Option<Expr>, end: int,
          S: seq<Value>, it: Items)
    returns (u: State)
    requires t.status == Running && Reaches(im.code, s, n, t) && Spans(im, t.pc, CodeForPops(step), end)
    requires t.stack == OnStack(S, step, it)
    ensures u == t.(pc := end, stack := S) && u.status == Running && Reaches(im.code, s, n + 1, u)
  {
    hide Run, Step, Execute, Reaches, Loaded, Spans, Length;
    var F := Fixed(step, it.pos, it.step);
    var two := Ins(Pop, Ins(Pop, Done));
    var t1 := DoPop(im, s, n, t, if step.Some? then Ins(Pop, Ins(Pop, two)) else Ins(Pop, two), end,
      S + F + [it.end, it.addr], it.cur);
    var t2 := DoPop(im, s, n + 1, t1, if step.Some? then Ins(Pop, two) else two, end, S + F + [it.end], it.addr);
    var t3 := DoPop(im, s, n + 2, t2, if step.Some? then two else Ins(Pop, Done), end, S + F, it.end);
    if step.Some? {
      assert S + F == S + [it.pos] + [it.step];
      var t4 := DoPop(im, s, n + 3, t3, Ins(Pop, Done), end, S + [it.pos], it.step);
      u := DoPop(im, s, n + 4, t4, Done, end, S, it.pos);
      AtEnd(im, s, n + 5, u, Done, end);
      ReachesWeaken(im.code, s, n + 5, n + 1, u);
    } else {
      u := DoPop(im, s, n + 3, t3, Done, end, S, it.step);
      AtEnd(im, s, n + 4, u, Done, end);
      ReachesWeaken(im.code, s, n + 4, n + 1, u);
    }
  }
}
