/** Running the code of a statement follows the statement. */
module StmSimulation {
  import opened Words
  import opened Isa
  import opened FlatMemory
  import opened Arithmetic
  import opened Machine
  import opened Accesses
  import opened Source
  import opened Domain
  import opened CodeGen
  import opened Cursor
  import opened Simulation
  import opened ExprSimulation
  import opened RangeSimulation

  /** What running the code of a statement from t must establish, for each way the statement ends.
      The operand stack is as it was at t whichever way control leaves, and a statement that has not
      finished within its fuel keeps the machine running for at least that many steps. */
  ghost predicate FlowDone(im: Image, s: State, n: nat, fuel: nat, t: State, u: State, end: int, fr: Frame, loop: Loop,
          r: Flow) {
    match r
    case Next(st) => Arrives(im, s, n, t, u, fr, st) && u.pc == end && u.stack == t.stack
    case Broke(st) =>
      Arrives(im, s, n, t, u, fr, st) && u.stack == t.stack && LoopLoaded(im, loop) && loop.InLoop?
        && u.pc == im.labels[loop.onBreak]
    case Continued(st) =>
      Arrives(im, s, n, t, u, fr, st) && u.stack == t.stack && LoopLoaded(im, loop) && loop.InLoop?
        && u.pc == im.labels[loop.onContinue]
    case Returned(st, ty, res) =>
      Arrives(im, s, n, t, u, fr, st) && AtReturn(im, t, u, ty, res)
    case Raised(f) => Reaches(im.code, s, n, u) && u.status == Failed(f)
    case OutOfFuel => Reaches(im.code, s, n + fuel, u) && u.status == Running
  }

  ghost predicate Arrives(im: Image, s: State, n: nat, t: State, u: State, fr: Frame, st: Store) {
    u.status == Running && Reaches(im.code, s, n, u) && Represented(u, fr, st) && Keeps(t, u, fr)
  }

  /** About to execute `ret`, with the result converted to the return type on top of the stack. */
  ghost predicate AtReturn(im: Image, t: State, u: State, ty: Type, res: Option<int>) {
    && u.pc in im.code.ops && im.code.ops[u.pc] == Ret
    && match res
       case None => u.stack == t.stack
       case Some(w) => |u.stack| == |t.stack| + 1 && u.stack[..|t.stack|] == t.stack
                       && u.stack[|t.stack|].ty == AsmTy(ty) && Low(u.stack[|t.stack|]) == w
  }

  predicate LoopLoaded(im: Image, loop: Loop) {
    loop.InLoop? ==>
      && loop.onContinue in im.labels && IsWord(im.labels[loop.onContinue])
      && loop.onBreak in im.labels && IsWord(im.labels[loop.onBreak])
  }

  /** A statement placed after code that only changed what running code may change. */
  lemma {:induction false} Behind(im: Image, s: State, m: nat, n: nat, f1: nat, f: nat, t: State, t1: State, u: State,
          end: int, fr: Frame, loop: Loop, r: Flow)
    requires FlowDone(im, s, m, f1, t1, u, end, fr, loop, r) && Keeps(t, t1, fr) && t1.stack == t.stack
    requires n <= m && n + f <= m + f1
    ensures FlowDone(im, s, n, f, t, u, end, fr, loop, r)
  {
    hide Run, Get, Represented, Read64;
    if r.OutOfFuel? {
      ReachesWeaken(im.code, s, m + f1, n + f, u);
    } else {
      ReachesWeaken(im.code, s, m, n, u);
      if !r.Raised? {
        KeepsTrans(t, t1, u, fr);
      }
    }
  }

  /** For every statement of the fragment, any fuel, and any state at the start of its code: the machine
      ends where the statement's outcome says, with the frame representing the outcome's store. */
  lemma {:induction false} SimStm(im: Image, s: State, n: nat, t: State, stm: Stm, k: nat, end: int, fr: Frame,
          pl: Place, loop: Loop, fuel: nat, st: Store)
    returns (u: State)
    requires At(im, s, n, t, CodeStm(stm, k, loop), end)
    requires WellTypedStm(stm, fr, pl) && SoundStm(stm, fr) && Represented(t, fr, st)
    requires (pl.inLoop ==> loop.InLoop?) && LoopLoaded(im, loop)
    requires |t.stack| + NeedStm(stm) <= MAX_OPERANDS
    ensures FlowDone(im, s, n, fuel, t, u, end, fr, loop, Exec(fuel, stm, st))
    decreases fuel, stm, 3
  {
    hide Read64, Get, Run, Step, Execute, Reaches, Spans, Loaded, Length, Represented, Keeps, FlowDone, Eval,
      EvalRight, WellTyped, Sound, CodeExpr, CodeBlock, ExecBlock, LoopLoaded, WellTypedBlock, SoundBlock, NeedBlock;
    match stm
    case VarDecl(slot, ty, init) =>
      if init.None? {
        u := t;
        Finished(im, s, n, fuel, t, u, Done, end, fr, loop, st);
      } else {
        u := SimAssign(im, s, n, t, slot, ty, init.value, k, end, fr, loop, fuel, st);
      }
    case Assign(slot, ty, e) => u := SimAssign(im, s, n, t, slot, ty, e, k, end, fr, loop, fuel, st);
    case OpAssign(slot, ty, op, e) => u := SimOpAssign(im, s, n, t, slot, ty, op, e, k, end, fr, loop, fuel, st);
    case Bump(up, slot, ty) => u := SimBump(im, s, n, t, up, slot, ty, end, fr, loop, fuel, st);
    case Block(ss) => u := SimBlock(im, s, n, t, ss, k, end, fr, pl, loop, fuel, st);
    case If(c, thn, els) =>
      if els.None? {
        u := SimIf(im, s, n, t, c, thn, k, end, fr, pl, loop, fuel, st);
      } else {
        u := SimIfElse(im, s, n, t, c, thn, els.value, k, end, fr, pl, loop, fuel, st);
      }
    case While(c, body) => u := SimWhileEntry(im, s, n, t, c, body, k, end, fr, pl, loop, fuel, st);
    case For(_, _, _, _, _, _) => u := SimFor(im, s, n, t, stm, k, end, fr, pl, loop, fuel, st);
    case Break => u := SimJump(im, s, n, t, loop.onBreak, end, fr, loop, fuel, st, Broke(st));
    case Continue => u := SimJump(im, s, n, t, loop.onContinue, end, fr, loop, fuel, st, Continued(st));
    case Return(e, ty) => u := SimReturn(im, s, n, t, e, ty, k, end, fr, loop, fuel, st);
  }

  lemma {:induction false} Finished(im: Image, s: State, n: nat, fuel: nat, t: State, u: State, a: Asm, end: int,
          fr: Frame, loop: Loop, st: Store)
    requires At(im, s, n, u, a, end) && (a.Done? || (a.Def? && a.rest.Done?))
    requires u == t.(pc := u.pc, stack := t.stack) && Represented(t, fr, st)
    ensures FlowDone(im, s, n, fuel, t, u, end, fr, loop, Next(st))
  {
    hide Read64, Get, Run, Keeps, Represented;
    AtEnd(im, s, n, u, a, end);
    SameStore(t, u, fr, st);
  }

  lemma {:induction false} SimBlock(im: Image, s: State, n: nat, t: State, ss: seq<Stm>, k: nat, end: int, fr: Frame,
          pl: Place, loop: Loop, fuel: nat, st: Store)
    returns (u: State)
    requires At(im, s, n, t, CodeBlock(ss, k, loop), end)
    requires WellTypedBlock(ss, fr, pl) && SoundBlock(ss, fr) && Represented(t, fr, st)
    requires (pl.inLoop ==> loop.InLoop?) && LoopLoaded(im, loop)
    requires |t.stack| + NeedBlock(ss) <= MAX_OPERANDS
    ensures FlowDone(im, s, n, fuel, t, u, end, fr, loop, ExecBlock(fuel, ss, st))
    decreases fuel, ss, 0
  {
    hide Read64, Get, Run, Step, Execute, Reaches, Spans, Loaded, Length, Represented, Keeps, CodeStm, WellTypedStm,
      SoundStm, Exec, NeedStm;
    if ss == [] {
      u := t;
      Finished(im, s, n, fuel, t, u, Done, end, fr, loop, st);
    } else {
      var first, rest := CodeStm(ss[0], k, loop), CodeBlock(ss[1..], k + LabelsOfStm(ss[0]), loop);
      SpansSeq(im, t.pc, first, rest, end);
      u := SimStm(im, s, n, t, ss[0], k, t.pc + Length(first), fr, pl, loop, fuel, st);
      match Exec(fuel, ss[0], st)
      case Next(st1) =>
        var u1 := u;
        u := SimBlock(im, s, n, u1, ss[1..], k + LabelsOfStm(ss[0]), end, fr, pl, loop, fuel, st1);
        Behind(im, s, n, n, fuel, fuel, t, u1, u, end, fr, loop, ExecBlock(fuel, ss[1..], st1));
      case _ =>
    }
  }

  lemma {:induction false} SimAssign(im: Image, s: State, n: nat, t: State, slot: int, ty: Type, e: Expr, k: nat,
          end: int, fr: Frame, loop: Loop, fuel: nat, st: Store)
    returns (u: State)
    requires At(im, s, n, t, AssignTemplate(slot, TypeOf(e), ty, CodeExpr(e, k)), end)
    requires SlotOk(slot, fr) && WellTyped(e, fr) && Convertible(TypeOf(e), ty)
    requires Sound(e, fr) && Storable(slot, e, ty, fr) && Represented(t, fr, st)
    requires |t.stack| + Need(e) <= MAX_OPERANDS
    ensures FlowDone(im, s, n, fuel, t, u, end, fr, loop, StoreInto(slot, Eval(e, st)))
  {
    hide Read64, Get, Write64, Run, Step, Execute, Reaches, Spans, Loaded, Length, Represented, Keeps, CodeExpr, Eval,
      WellTyped, Sound;
    var u1, v := SimConverted(im, s, n, t, e, k, ty, Ins(StoreL(slot), Done), end, fr, st);
    u := u1;
    if Eval(e, st).Ok? {
      var (w, st1) := Eval(e, st).value;
      CellHolds(u1, fr, st1, slot);
      u := DoStoreL(im, s, n + 1, u1, slot, u1.fp + 8 * slot, Done, end, t.stack, v);
      CellStore64(u1.mem, u1.fp + 8 * slot, v.raw % W64);
      RawLow(v.raw);
      SlotWrite(u1, u, fr, st1, slot, v.raw % W64, w);
      KeepsTrans(t, u1, u, fr);
      AtEnd(im, s, n + 2, u, Done, end);
      ReachesWeaken(im.code, s, n + 2, n, u);
    } else {
      ReachesWeaken(im.code, s, n + 1, n, u);
    }
  }

  lemma {:induction false} RawLow(raw: nat)
    ensures raw % W64 % W32 == raw % W32 && (raw < W32 ==> raw % W64 == raw)
  {
  }

  lemma {:induction false} SimOpAssign(im: Image, s: State, n: nat, t: State, slot: int, ty: Type, op: BinOp, e: Expr,
          k: nat, end: int, fr: Frame, loop: Loop, fuel: nat, st: Store)
    returns (u: State)
    requires At(im, s, n, t, OpAssignTemplate(slot, ty, op, CodeRight(op, ty, e, k)), end)
    requires SlotOk(slot, fr) && WellTyped(e, fr) && BinaryAccepts(op, ty, TypeOf(e))
      && Converts(if IsLogic(op) then TBool else TInt, ty)
    requires !IsComparison(op) && SoundRight(op, true, e, fr) && Represented(t, fr, st)
    requires |t.stack| + Max(2, 1 + NeedRight(op, e)) <= MAX_OPERANDS
    ensures FlowDone(im, s, n, fuel, t, u, end, fr, loop, StoreInto(slot, EvalRight(op, Fetch(st, slot), e, st)))
  {
    hide Read64, Get, Run, Step, Execute, Reaches, Spans, Loaded, Length, Represented, Keeps, CodeRight, EvalRight,
      WellTyped, Sound, SoundRight, Reads, NeedRight, CleanAs, CleanResult, ExprDone, FlowDone, BinaryAccepts, ResultOf;
    var S, a := t.stack, Fetch(st, slot);
    RightSound(op, true, e, fr);
    var code, tail := CodeRight(op, ty, e, k), Ins(Store, Done);
    var u1 := DoFetch(im, s, n, t, slot, ty, Seq(code, tail), end, fr, st);
    var p := Value(PTR, t.fp + 8 * slot);
    SameStore(t, u1, fr, st);
    InFrame(t, fr, st);
    SpansSeq(im, u1.pc, code, tail, end);
    assert u1.stack == S + [p] + [Value(AsmTy(ty), a)];
    var u2, v := SimRight(im, s, n + 3, u1, op, ty, e, k, u1.pc + Length(code), fr, st, S + [p], Value(AsmTy(ty), a),
      a, true);
    u := SimOpStore(im, s, n, t, u1, u2, v, slot, op, end, fr, loop, fuel, u1.pc + Length(code),
                    CleanResult(op, true, CleanAs(e, TInt, fr)), EvalRight(op, a, e, st));
  }

  lemma {:induction false} InFrame(t: State, fr: Frame, st: Store)
    requires Represented(t, fr, st)
    ensures FrameOk(t, fr)
  {
  }

  /** The store that ends a compound assignment, or the error of its operator. */
  lemma {:induction false} SimOpStore(im: Image, s: State, n: nat, t: State, u1: State, u2: State, v: Value, slot: int,
          op: BinOp, end: int, fr: Frame, loop: Loop, fuel: nat, mid: int, clean: bool, r: Outcome<(int, Store)>)
    returns (u: State)
    requires SlotOk(slot, fr) && FrameOk(t, fr)
    requires ExprDone(im, s, n + 4, u1, t.stack + [Value(PTR, t.fp + 8 * slot)], u2, v, mid, fr, ResultOf(op), clean, r)
    requires r.Ok? ==> IsWord(r.value.0)
    requires Keeps(t, u1, fr) && Spans(im, mid, Ins(Store, Done), end)
    ensures FlowDone(im, s, n, fuel, t, u, end, fr, loop, StoreInto(slot, r))
  {
    hide Read64, Get, Run, Step, Execute, Reaches, Spans, Loaded, Length, Represented, Keeps, FlowDone;
    u := u2;
    if r.Ok? {
      KeepsTrans(t, u1, u2, fr);
      KeepsFp(t, u2, fr);
      SlotInFrame(t, fr, slot);
      u := StoreThrough(im, s, n + 4, n, fuel, t, u2, slot, v, r.value.0, end, fr, loop, r.value.1);
    } else {
      ReachesWeaken(im.code, s, n + 4, n, u);
      RaisedFlow(im, s, n, fuel, t, u, end, fr, loop, r.fault);
    }
  }

  /** The final store of a compound assignment. */
  lemma {:induction false} StoreThrough(im: Image, s: State, m: nat, n: nat, fuel: nat, t: State, t2: State, slot: int,
          v: Value, w: int, end: int, fr: Frame, loop: Loop, st: Store)
    returns (u: State)
    requires t2.status == Running && Reaches(im.code, s, m, t2) && Spans(im, t2.pc, Ins(Store, Done), end) && n <= m
    requires SlotOk(slot, fr) && Represented(t2, fr, st) && Keeps(t, t2, fr) && IsWord(t2.fp + 8 * slot) && IsWord(w)
    requires t2.stack == t.stack + [Value(PTR, t2.fp + 8 * slot)] + [v] && Low(v) == w && !IsWide(v.ty)
    ensures FlowDone(im, s, n, fuel, t, u, end, fr, loop, Next(st[slot := w]))
  {
    hide Read64, Get, Run, Step, Execute, Reaches, Spans, Loaded, Length, Represented, Keeps;
    assert t2.stack == t.stack + [Value(PTR, t2.fp + 8 * slot), v];
    u := DoPut(im, s, m, t2, t2, slot, v, w, Done, end, fr, st, t.stack);
    KeepsTrans(t, t2, u, fr);
    AtEnd(im, s, m + 1, u, Done, end);
    ReachesWeaken(im.code, s, m + 1, n, u);
  }

  lemma {:induction false} SimBump(im: Image, s: State, n: nat, t: State, up: bool, slot: int, ty: Type, end: int,
          fr: Frame, loop: Loop, fuel: nat, st: Store)
    returns (u: State)
    requires At(im, s, n, t, BumpTemplate(up, slot, ty), end)
    requires SlotOk(slot, fr) && IsNumeric(ty) && Represented(t, fr, st) && |t.stack| + 3 <= MAX_OPERANDS
    ensures FlowDone(im, s, n, fuel, t, u, end, fr, loop, Next(st[slot := Bumped(Fetch(st, slot), up)]))
  {
    hide Read64, Get, Run, Step, Execute, Reaches, Spans, Loaded, Length, Represented, Keeps;
    var S, w, T := t.stack, Fetch(st, slot), AsmTy(ty);
    var op, w1 := if up then ADD else SUB, Bumped(w, up);
    BumpValue(ty, w, up);
    var t1 := DoFetch(im, s, n, t, slot, ty, Ins(Push(T, 1), Ins(Arith(op), Ins(Store, Done))), end, fr, st);
    var p := Value(PTR, t.fp + 8 * slot);
    var t2 := DoPush(im, s, n + 3, t1, T, 1, Ins(Arith(op), Ins(Store, Done)), end);
    assert t2.stack == S + [p] + [Value(T, w), Value(T, 1)];
    var t3 := DoArith(im, s, n + 4, t2, op, Ins(Store, Done), end, S + [p], Value(T, w), Value(T, 1), Value(T, w1));
    assert t3.stack == S + [p, Value(T, w1)];
    u := DoPut(im, s, n + 5, t3, t, slot, Value(T, w1), w1, Done, end, fr, st, S);
    AtEnd(im, s, n + 6, u, Done, end);
    ReachesWeaken(im.code, s, n + 6, n, u);
  }

  /** break and continue. */
  lemma {:induction false} SimJump(im: Image, s: State, n: nat, t: State, l: Label, end: int, fr: Frame, loop: Loop,
          fuel: nat, st: Store, r: Flow)
    returns (u: State)
    requires loop.InLoop? && LoopLoaded(im, loop) && At(im, s, n, t, Ins(Jmp(l), Done), end) && Represented(t, fr, st)
    requires (r == Broke(st) && l == loop.onBreak) || (r == Continued(st) && l == loop.onContinue)
    ensures FlowDone(im, s, n, fuel, t, u, end, fr, loop, r)
  {
    hide Read64, Get, Run, Step, Execute, Reaches, Spans, Loaded, Length, Represented, Keeps;
    u := DoJmp(im, s, n, t, l, Done, end);
    SameStore(t, u, fr, st);
    ReachesWeaken(im.code, s, n + 1, n, u);
  }

  lemma {:induction false} SimReturn(im: Image, s: State, n: nat, t: State, e: Option<Expr>, ty: Type, k: nat,
          end: int, fr: Frame, loop: Loop, fuel: nat, st: Store)
    returns (u: State)
    requires At(im, s, n, t, CodeStm(Return(e, ty), k, loop), end) && Represented(t, fr, st)
    requires e.Some? ==> WellTyped(e.value, fr) && Sound(e.value, fr) && |t.stack| + Need(e.value) <= MAX_OPERANDS
    ensures FlowDone(im, s, n, fuel, t, u, end, fr, loop, Exec(fuel, Return(e, ty), st))
  {
    hide Read64, Get, Run, Step, Execute, Reaches, Length, Represented, Keeps, CodeExpr, Eval, WellTyped, Sound;
    if e.None? {
      u := t;
      SameStore(t, u, fr, st);
    } else {
      var v;
      u, v := SimConverted(im, s, n, t, e.value, k, ty, Ins(Ret, Done), end, fr, st);
      ReachesWeaken(im.code, s, n + 1, n, u);
    }
  }

  // ---------------------------------------------------------------- conditionals

  lemma {:induction false} SimIf(im: Image, s: State, n: nat, t: State, c: Expr, thn: seq<Stm>, k: nat, end: int,
          fr: Frame, pl: Place, loop: Loop, fuel: nat, st: Store)
    returns (u: State)
    requires var m := k + LabelsOf(c); At(im, s, n, t, IfTemplate(m, CodeExpr(c, k), CodeBlock(thn, m + 1, loop)), end)
    requires WellTyped(c, fr) && TypeOf(c) == TBool && Sound(c, fr) && WellTypedBlock(thn, fr, pl)
    requires SoundBlock(thn, fr)
    requires Represented(t, fr, st)
    requires (pl.inLoop ==> loop.InLoop?) && LoopLoaded(im, loop)
    requires |t.stack| + Max(Need(c), NeedBlock(thn)) <= MAX_OPERANDS
    ensures FlowDone(im, s, n, fuel, t, u, end, fr, loop, Exec(fuel, If(c, thn, None), st))
    decreases fuel, thn, 1
  {
    hide Read64, Get, Run, Step, Execute, Reaches, Spans, Loaded, Length, Represented, Keeps, CodeExpr, CodeBlock,
      Eval, WellTyped, Sound, WellTypedBlock, SoundBlock, ExecBlock;
    var m := k + LabelsOf(c);
    var l, code, body := CodeLabel(IfEndKind, m), CodeExpr(c, k), CodeBlock(thn, m + 1, loop);
    var rest := Seq(body, Def(l, Done));
    SpansSeq(im, t.pc, code, Ins(Jez(l), rest), end);
    SpansIns(im, t.pc + Length(code), Jez(l), rest, end);
    SpansJoin(im, t.pc + Length(code) + 5, body, l, end);
    var u1 := SimCondition(im, s, n, t, c, k, true, l, rest, end, fr, st);
    u := u1;
    if Eval(c, st).Ok? {
      var (w, st1) := Eval(c, st).value;
      if w != 0 {
        SpansSeq(im, u1.pc, body, Def(l, Done), end);
        SpansJoin(im, u1.pc, body, l, end);
        u := SimBlock(im, s, n + 1, u1, thn, m + 1, end, fr, pl, loop, fuel, st1);
        Behind(im, s, n + 1, n, fuel, fuel, t, u1, u, end, fr, loop, ExecBlock(fuel, thn, st1));
      } else {
        ReachesWeaken(im.code, s, n + 1, n, u);
      }
    } else {
      ReachesWeaken(im.code, s, n + 1, n, u);
    }
  }

  /** A body that falls through to the label right behind it. */
  lemma {:induction false} SpansJoin(im: Image, at: int, body: Asm, l: Label, end: int)
    requires Spans(im, at, Seq(body, Def(l, Done)), end)
    ensures at + Length(body) == end && l in im.labels && im.labels[l] == end && IsWord(end)
  {
    hide Loaded, Length, Spans;
    SpansSeq(im, at, body, Def(l, Done), end);
    SpansDef(im, at + Length(body), l, Done, end);
    SpansDone(im, at + Length(body), end);
  }

  lemma {:induction false} SimIfElse(im: Image, s: State, n: nat, t: State, c: Expr, thn: seq<Stm>, els: Stm, k: nat,
          end: int, fr: Frame, pl: Place, loop: Loop, fuel: nat, st: Store)
    returns (u: State)
    requires var m := k + LabelsOf(c);
             At(im, s, n, t, IfElseTemplate(m, CodeExpr(c, k), CodeBlock(thn, m + 2, loop),
               CodeStm(els, m + 2 + LabelsOfBlock(thn), loop)), end)
    requires WellTyped(c, fr) && TypeOf(c) == TBool && Sound(c, fr) && WellTypedBlock(thn, fr, pl)
    requires SoundBlock(thn, fr)
    requires Represented(t, fr, st)
    requires WellTypedStm(els, fr, pl) && SoundStm(els, fr)
    requires (pl.inLoop ==> loop.InLoop?) && LoopLoaded(im, loop)
    requires |t.stack| + Max(Need(c), Max(NeedBlock(thn), NeedStm(els))) <= MAX_OPERANDS
    ensures FlowDone(im, s, n, fuel, t, u, end, fr, loop, Exec(fuel, If(c, thn, Some(els)), st))
    decreases fuel, If(c, thn, Some(els)), 2
  {
    hide Read64, Get, Run, Step, Execute, Reaches, Spans, Loaded, Length, Represented, Keeps, CodeExpr, CodeBlock,
      CodeStm, Eval, WellTyped, Sound, WellTypedBlock, SoundBlock, ExecBlock, WellTypedStm, SoundStm, NeedStm,
      NeedBlock, FlowDone, LoopLoaded;
    var m := k + LabelsOf(c);
    var join, other := CodeLabel(IfEndKind, m), CodeLabel(IfElseKind, m + 1);
    var code, body, alt := CodeExpr(c, k), CodeBlock(thn, m + 2, loop), CodeStm(els, m + 2 + LabelsOfBlock(thn), loop);
    var rest := Seq(body, Ins(Jmp(join), Def(other, Seq(alt, Def(join, Done)))));
    SpansIfElse(im, t.pc, m, code, body, alt, end);
    var u1 := SimCondition(im, s, n, t, c, k, true, other, rest, end, fr, st);
    u := u1;
    if Eval(c, st).Ok? {
      var (w, st1) := Eval(c, st).value;
      if w != 0 {
        u := SimThen(im, s, n + 1, u1, thn, m + 2, join, Def(other, Seq(alt, Def(join, Done))), end, fr, pl, loop,
          fuel, st1);
        Behind(im, s, n + 1, n, fuel, fuel, t, u1, u, end, fr, loop, ExecBlock(fuel, thn, st1));
      } else {
        SpansSeq(im, u1.pc, alt, Def(join, Done), end);
        SpansJoin(im, u1.pc, alt, join, end);
        u := SimStm(im, s, n + 1, u1, els, m + 2 + LabelsOfBlock(thn), end, fr, pl, loop, fuel, st1);
        Behind(im, s, n + 1, n, fuel, fuel, t, u1, u, end, fr, loop, Exec(fuel, els, st1));
      }
    } else {
      ReachesWeaken(im.code, s, n + 1, n, u);
      RaisedFlow(im, s, n, fuel, t, u, end, fr, loop, Eval(c, st).fault);
    }
  }

  lemma {:induction false} SpansIfElse(im: Image, at: int, m: nat, code: Asm, body: Asm, alt: Asm, end: int)
    requires Spans(im, at, IfElseTemplate(m, code, body, alt), end)
    ensures var join, other := CodeLabel(IfEndKind, m), CodeLabel(IfElseKind, m + 1);
            && other in im.labels && IsWord(im.labels[other])
                 && Spans(im, im.labels[other], Seq(alt, Def(join, Done)), end)
            && join in im.labels && im.labels[join] == end && IsWord(end)
  {
    hide Loaded, Length, Spans;
    var join, other := CodeLabel(IfEndKind, m), CodeLabel(IfElseKind, m + 1);
    var tail := Seq(alt, Def(join, Done));
    SpansSeq(im, at, code, Ins(Jez(other), Seq(body, Ins(Jmp(join), Def(other, tail)))), end);
    SpansIns(im, at + Length(code), Jez(other), Seq(body, Ins(Jmp(join), Def(other, tail))), end);
    SpansSeq(im, at + Length(code) + 5, body, Ins(Jmp(join), Def(other, tail)), end);
    SpansIns(im, at + Length(code) + 5 + Length(body), Jmp(join), Def(other, tail), end);
    SpansDef(im, at + Length(code) + 5 + Length(body) + 5, other, tail, end);
    SpansJoin(im, at + Length(code) + 5 + Length(body) + 5, alt, join, end);
  }

  /** A block followed by a jump to the join point. */
  lemma {:induction false} SimThen(im: Image, s: State, n: nat, t: State, ss: seq<Stm>, k: nat, join: Label, rest: Asm,
          end: int, fr: Frame, pl: Place, loop: Loop, fuel: nat, st: Store)
    returns (u: State)
    requires At(im, s, n, t, Seq(CodeBlock(ss, k, loop), Ins(Jmp(join), rest)), end)
    requires join in im.labels && im.labels[join] == end && IsWord(end)
    requires WellTypedBlock(ss, fr, pl) && SoundBlock(ss, fr) && Represented(t, fr, st)
    requires (pl.inLoop ==> loop.InLoop?) && LoopLoaded(im, loop) && |t.stack| + NeedBlock(ss) <= MAX_OPERANDS
    ensures FlowDone(im, s, n, fuel, t, u, end, fr, loop, ExecBlock(fuel, ss, st))
    decreases fuel, ss, 1
  {
    hide Read64, Get, Run, Step, Execute, Reaches, Spans, Loaded, Length, Represented, Keeps, CodeBlock,
      WellTypedBlock, SoundBlock, ExecBlock, NeedBlock;
    var body := CodeBlock(ss, k, loop);
    SpansSeq(im, t.pc, body, Ins(Jmp(join), rest), end);
    u := SimBlock(im, s, n, t, ss, k, t.pc + Length(body), fr, pl, loop, fuel, st);
    match ExecBlock(fuel, ss, st)
    case Next(st1) =>
      var u1 := u;
      u := DoJmp(im, s, n, u1, join, rest, end);
      SameStore(u1, u, fr, st1);
      KeepsTrans(t, u1, u, fr);
      ReachesWeaken(im.code, s, n + 1, n, u);
    case _ =>
  }

  // ---------------------------------------------------------------- while

  lemma {:induction false} SimWhileEntry(im: Image, s: State, n: nat, t: State, c: Expr, body: seq<Stm>, k: nat,
          end: int, fr: Frame, pl: Place, loop: Loop, fuel: nat, st: Store)
    returns (u: State)
    requires At(im, s, n, t, CodeStm(While(c, body), k, loop), end)
    requires WellTyped(c, fr) && TypeOf(c) == TBool && Sound(c, fr) && Represented(t, fr, st)
    requires WellTypedBlock(body, fr, pl.(inLoop := true)) && SoundBlock(body, fr)
    requires |t.stack| + Max(Need(c), NeedBlock(body)) <= MAX_OPERANDS
    ensures FlowDone(im, s, n, fuel, t, u, end, fr, loop, Exec(fuel, While(c, body), st))
    decreases fuel, While(c, body), 2
  {
    hide Read64, Get, Run, Step, Execute, Reaches, Spans, Loaded, Length, Represented, Keeps, CodeExpr, CodeBlock,
      Eval, WellTyped, Sound, WellTypedBlock, SoundBlock, ExecBlock, NeedBlock, FlowDone;
    var code, block := CodeExpr(c, k + 2), CodeBlock(body, k + 2 + LabelsOf(c), InLoop(WhileStart(k), WhileEnd(k)));
    SpansWhile(im, t.pc, k, code, block, end);
    u := SimWhile(im, s, n, t, c, body, k, end, fr, pl, loop, fuel, st);
  }

  ghost predicate WhileLoaded(im: Image, k: nat, code: Asm, block: Asm, end: int) {
    && WhileStart(k) in im.labels && IsWord(im.labels[WhileStart(k)])
    && Spans(im, im.labels[WhileStart(k)],
             Seq(code, Ins(Jez(WhileEnd(k)), Seq(block, Ins(Jmp(WhileStart(k)), Def(WhileEnd(k), Done))))), end)
    && WhileEnd(k) in im.labels && im.labels[WhileEnd(k)] == end && IsWord(end)
  }

  lemma {:induction false} SpansWhile(im: Image, at: int, k: nat, code: Asm, block: Asm, end: int)
    requires Spans(im, at, WhileTemplate(k, code, block), end)
    ensures WhileLoaded(im, k, code, block, end) && im.labels[WhileStart(k)] == at
  {
    hide Loaded, Length, Spans;
    var start, stop := WhileStart(k), WhileEnd(k);
    var tail := Ins(Jmp(start), Def(stop, Done));
    SpansDef(im, at, start, Seq(code, Ins(Jez(stop), Seq(block, tail))), end);
    SpansSeq(im, at, code, Ins(Jez(stop), Seq(block, tail)), end);
    SpansIns(im, at + Length(code), Jez(stop), Seq(block, tail), end);
    SpansSeq(im, at + Length(code) + 5, block, tail, end);
    SpansIns(im, at + Length(code) + 5 + Length(block), Jmp(start), Def(stop, Done), end);
    SpansDef(im, at + Length(code) + 5 + Length(block) + 5, stop, Done, end);
    SpansDone(im, at + Length(code) + 5 + Length(block) + 5, end);
  }

  /** From the loop's start label: one iteration, then the rest of the loop with a unit of fuel less. */
  lemma {:induction false} SimWhile(im: Image, s: State, n: nat, t: State, c: Expr, body: seq<Stm>, k: nat, end: int,
          fr: Frame, pl: Place, loop: Loop, fuel: nat, st: Store)
    returns (u: State)
    requires var inner := InLoop(WhileStart(k), WhileEnd(k));
             WhileLoaded(im, k, CodeExpr(c, k + 2), CodeBlock(body, k + 2 + LabelsOf(c), inner), end)
    requires t.status == Running && Reaches(im.code, s, n, t) && t.pc == im.labels[WhileStart(k)]
    requires WellTyped(c, fr) && TypeOf(c) == TBool && Sound(c, fr) && Represented(t, fr, st)
    requires WellTypedBlock(body, fr, pl.(inLoop := true)) && SoundBlock(body, fr)
    requires |t.stack| + Max(Need(c), NeedBlock(body)) <= MAX_OPERANDS
    ensures FlowDone(im, s, n, fuel, t, u, end, fr, loop, Exec(fuel, While(c, body), st))
    decreases fuel, While(c, body), 1
  {
    hide Read64, Get, Run, Step, Execute, Reaches, Spans, Loaded, Length, Represented, Keeps, CodeExpr, CodeBlock,
      Eval, WellTyped, Sound, WellTypedBlock, SoundBlock, ExecBlock, NeedBlock, Need;
    u := t;
    if fuel > 0 {
      var inner := InLoop(WhileStart(k), WhileEnd(k));
      var block := CodeBlock(body, k + 2 + LabelsOf(c), inner);
      var tail := Ins(Jmp(WhileStart(k)), Def(WhileEnd(k), Done));
      var u1 := SimCondition(im, s, n, t, c, k + 2, true, WhileEnd(k), Seq(block, tail), end, fr, st);
      u := u1;
      if Eval(c, st).Ok? && Eval(c, st).value.0 != 0 {
        var st1 := Eval(c, st).value.1;
        SpansSeq(im, u1.pc, block, tail, end);
        var u2 := SimBlock(im, s, n + 1, u1, body, k + 2 + LabelsOf(c), u1.pc + Length(block), fr, pl.(inLoop := true),
          inner, fuel, st1);
        u := SimIterated(im, s, n + 1, t, u1, u2, c, body, k, u1.pc + Length(block), end, fr, pl, loop, fuel, st, st1);
      } else {
        ReachesWeaken(im.code, s, n + 1, n, u);
      }
    }
  }

  /** What follows the body of a while loop. */
  lemma {:induction false} SimIterated(im: Image, s: State, n: nat, t: State, u1: State, u2: State, c: Expr,
          body: seq<Stm>, k: nat, mid: int, end: int, fr: Frame, pl: Place, loop: Loop, fuel: nat, st: Store,
          st1: Store)
    returns (u: State)
    requires var inner := InLoop(WhileStart(k), WhileEnd(k));
             WhileLoaded(im, k, CodeExpr(c, k + 2), CodeBlock(body, k + 2 + LabelsOf(c), inner), end)
             && FlowDone(im, s, n, fuel, u1, u2, mid, fr, inner, ExecBlock(fuel, body, st1))
    requires Spans(im, mid, Ins(Jmp(WhileStart(k)), Def(WhileEnd(k), Done)), end)
    requires n > 0 && fuel > 0 && Keeps(t, u1, fr) && u1.stack == t.stack
    requires Eval(c, st).Ok? && Eval(c, st).value.0 != 0 && Eval(c, st).value.1 == st1
    requires WellTyped(c, fr) && TypeOf(c) == TBool && Sound(c, fr)
    requires WellTypedBlock(body, fr, pl.(inLoop := true)) && SoundBlock(body, fr)
    requires |t.stack| + Max(Need(c), NeedBlock(body)) <= MAX_OPERANDS
    ensures FlowDone(im, s, n - 1, fuel, t, u, end, fr, loop, Exec(fuel, While(c, body), st))
    decreases fuel, While(c, body), 0
  {
    hide Read64, Get, Run, Step, Execute, Reaches, Spans, Loaded, Length, Represented, Keeps, CodeExpr, CodeBlock,
      Eval, WellTyped, Sound, WellTypedBlock, SoundBlock, ExecBlock, NeedBlock, Need;
    u := u2;
    match ExecBlock(fuel, body, st1)
    case Next(st2) =>
      KeepsTrans(t, u1, u2, fr);
      var u3 := DoJmp(im, s, n, u2, WhileStart(k), Def(WhileEnd(k), Done), end);
      SameStore(u2, u3, fr, st2);
      KeepsTrans(t, u2, u3, fr);
      ReachesWeaken(im.code, s, n + 1, n, u3);
      u := SimWhile(im, s, n, u3, c, body, k, end, fr, pl, loop, fuel - 1, st2);
      Behind(im, s, n, n - 1, fuel - 1, fuel, t, u3, u, end, fr, loop, Exec(fuel - 1, While(c, body), st2));
    case Continued(st2) =>
      KeepsTrans(t, u1, u2, fr);
      u := SimWhile(im, s, n, u2, c, body, k, end, fr, pl, loop, fuel - 1, st2);
      Behind(im, s, n, n - 1, fuel - 1, fuel, t, u2, u, end, fr, loop, Exec(fuel - 1, While(c, body), st2));
    case Broke(st2) =>
      KeepsTrans(t, u1, u2, fr);
      ReachesWeaken(im.code, s, n, n - 1, u2);
    case Returned(st2, ty, r) =>
      KeepsTrans(t, u1, u2, fr);
      ReachesWeaken(im.code, s, n, n - 1, u2);
    case Raised(f) => ReachesWeaken(im.code, s, n, n - 1, u2);
    case OutOfFuel => ReachesWeaken(im.code, s, n + fuel, n - 1 + fuel, u2);
  }

  // ---------------------------------------------------------------- for

  function ForBody(stm: Stm, k: nat): Asm
    requires stm.For?
  {
    CodeBlock(stm.body, ForBodyCounter(stm, k), InLoop(ForContinue(k, stm.step), ForEnd(k, stm.step)))
  }

  function ForBodyCounter(stm: Stm, k: nat): nat
    requires stm.For?
  {
    k + ForLabels(stm.step) + LabelsOfStep(stm.step) + LabelsOf(stm.end) + LabelsOf(stm.start)
  }

  predicate ForOk(stm: Stm, fr: Frame, pl: Place) {
    && stm.For? && WellTypedStm(stm, fr, pl) && SoundStm(stm, fr)
  }

  lemma {:induction false} SimFor(im: Image, s: State, n: nat, t: State, stm: Stm, k: nat, end: int, fr: Frame,
          pl: Place, loop: Loop, fuel: nat, st: Store)
    returns (u: State)
    requires At(im, s, n, t, CodeStm(stm, k, loop), end)
    requires ForOk(stm, fr, pl) && Represented(t, fr, st) && |t.stack| + NeedStm(stm) <= MAX_OPERANDS
    ensures FlowDone(im, s, n, fuel, t, u, end, fr, loop, Exec(fuel, stm, st))
    decreases fuel, stm, 2
  {
    hide Read64, Get, Run, Step, Execute, Reaches, Spans, Loaded, Length, Represented, Keeps, CodeExpr, Eval,
      WellTyped, Sound, WellTypedBlock, SoundBlock, CodeBlock, Need, NeedBlock, CodeForStep, CodeForBounds,
      CodeForLoop, FlowDone, ExecRange, EvalStep;
    var For(slot, ty, a, b, step, body) := stm;
    var loopCode := Def(ForStart(k, step), CodeForLoop(k, step, ForBody(stm, k)));
    var kb := k + ForLabels(step) + LabelsOfStep(step);
    var u1, pos, d := DoForStep(im, s, n, t, ty, step, k, CodeForBounds(slot, ty, a, b, kb, loopCode), end, fr, st);
    u := u1;
    if EvalStep(step, st).Ok? && EvalStep(step, st).value.0 != 0 {
      var (dw, st1) := EvalStep(step, st).value;
      var u2, e, c := DoForBounds(im, s, n, u1, slot, ty, a, b, kb, loopCode, end, fr, st1);
      u := u2;
      if EvalBounds(a, b, st1).Ok? {
        var (ew, cw, st2) := EvalBounds(a, b, st1).value;
        KeepsTrans(t, u1, u2, fr);
        SpansFor(im, u2.pc, k, step, ForBody(stm, k), end);
        KeepsFp(t, u1, fr);
        KeepsFp(t, u2, fr);
        assert u2.stack == t.stack + Fixed(step, pos, d) + [e, Value(PTR, t.fp + 8 * slot), c];
        u := SimRange(im, s, n, t, u2, stm, k, end, fr, pl, loop, fuel, st2,
          Items(pos, d, e, Value(PTR, t.fp + 8 * slot), c), dw, ew, cw);
      } else {
        RaisedFlow(im, s, n, fuel, t, u, end, fr, loop, EvalBounds(a, b, st1).fault);
      }
    } else {
      RaisedFlow(im, s, n, fuel, t, u, end, fr, loop,
                 if EvalStep(step, st).Ok? then ZeroStep else EvalStep(step, st).fault);
    }
  }

  lemma {:induction false} RaisedFlow(im: Image, s: State, n: nat, fuel: nat, t: State, u: State, end: int, fr: Frame,
          loop: Loop, f: Fault)
    requires Reaches(im.code, s, n, u) && u.status == Failed(f)
    ensures FlowDone(im, s, n, fuel, t, u, end, fr, loop, Raised(f))
  {
  }

  /** From the loop test on: t0 is the state before the loop, whose operand stack the loop restores. */
  lemma {:induction false} SimRange(im: Image, s: State, n: nat, t0: State, t: State, stm: Stm, k: nat, end: int,
          fr: Frame, pl: Place, loop: Loop, fuel: nat, st: Store, it: Items, dw: int, ew: int, cw: int)
    returns (u: State)
    requires ForOk(stm, fr, pl) && ForLoaded(im, k, stm.step, ForBody(stm, k), end)
    requires t.status == Running && Reaches(im.code, s, n, t) && t.pc == im.labels[ForStart(k, stm.step)]
    requires t.stack == OnStack(t0.stack, stm.step, it) && ItemsOk(t, stm.slot, stm.ty, stm.step, it, dw, ew, cw)
    requires Represented(t, fr, st) && Keeps(t0, t, fr) && |t0.stack| + Max(8, 5 + NeedBlock(stm.body)) <= MAX_OPERANDS
    ensures FlowDone(im, s, n, fuel, t0, u, end, fr, loop, ExecRange(fuel, stm, cw, ew, dw, st))
    decreases fuel, stm, 1
  {
    hide Read64, Get, Run, Step, Execute, Reaches, Spans, Loaded, Length, Represented, Keeps, CodeExpr, Eval,
      WellTyped, Sound, WellTypedBlock, SoundBlock, CodeBlock, ExecBlock, Need, NeedBlock, CodeForLoop, CodeForBody,
      CodeForPops, OnStack, InRange;
    u := t;
    if fuel == 0 {
    } else {
      var S := t0.stack;
      var u1 := DoForTest(im, s, n, t, stm.slot, stm.ty, stm.step, k, ForBody(stm, k), end, S, it, dw, ew, cw);
      SameStore(t, u1, fr, st);
      KeepsTrans(t0, t, u1, fr);
      if InRange(stm.ty, dw, cw, ew) {
        u := SimTurn(im, s, n + 1, t0, u1, stm, k, end, fr, pl, loop, fuel, st, it, dw, ew, cw);
      } else {
        u := DoForPops(im, s, n + 1, u1, stm.step, end, S, it);
        SameStore(u1, u, fr, st);
        KeepsTrans(t0, u1, u, fr);
        ReachesWeaken(im.code, s, n + 2, n, u);
      }
    }
  }

  /** One turn of the loop and the rest of it. */
  lemma {:induction false} SimTurn(im: Image, s: State, n: nat, t0: State, t: State, stm: Stm, k: nat, end: int,
          fr: Frame, pl: Place, loop: Loop, fuel: nat, st: Store, it: Items, dw: int, ew: int, cw: int)
    returns (u: State)
    requires ForOk(stm, fr, pl) && ForLoaded(im, k, stm.step, ForBody(stm, k), end)
    requires n > 0 && fuel > 0 && At(im, s, n, t, CodeForBody(k, stm.step, ForBody(stm, k)), end)
    requires t.stack == OnStack(t0.stack, stm.step, it) && ItemsOk(t, stm.slot, stm.ty, stm.step, it, dw, ew, cw)
    requires Represented(t, fr, st) && Keeps(t0, t, fr) && |t0.stack| + Max(8, 5 + NeedBlock(stm.body)) <= MAX_OPERANDS
    requires InRange(stm.ty, dw, cw, ew)
    ensures FlowDone(im, s, n - 1, fuel, t0, u, end, fr, loop, ExecRange(fuel, stm, cw, ew, dw, st))
    decreases fuel, stm, 0
  {
    hide Read64, Get, Run, Step, Execute, Reaches, Spans, Loaded, Length, Represented, Keeps, CodeExpr, Eval,
      WellTyped, Sound, WellTypedBlock, SoundBlock, CodeBlock, ExecBlock, Need, NeedBlock, CodeForLoop, CodeForBody,
      CodeForPops, InRange;
    var inner := InLoop(ForContinue(k, stm.step), ForEnd(k, stm.step));
    var u1 := DoForEnter(im, s, n, t, stm.slot, stm.ty, stm.step, k, ForBody(stm, k), end, t0.stack, it, dw, ew, cw,
      fr, st);
    KeepsTrans(t0, t, u1, fr);
    KeepsFp(t, u1, fr);
    SpansSeq(im, u1.pc, ForBody(stm, k), Def(ForContinue(k, stm.step), CodeForNext(k, stm.step)), end);
    var mid := u1.pc + Length(ForBody(stm, k));
    SpansDef(im, mid, ForContinue(k, stm.step), CodeForNext(k, stm.step), end);
    ReachesWeaken(im.code, s, n + 3, n, u1);
    var u2 := SimBlock(im, s, n, u1, stm.body, ForBodyCounter(stm, k), mid, fr, pl.(inLoop := true), inner, fuel,
      st[stm.slot := cw]);
    NoReturn(stm.body, fr, pl.(inLoop := true), fuel, st[stm.slot := cw]);
    u := SimTurned(im, s, n, t0, u1, u2, stm, k, mid, end, fr, pl, loop, fuel, st, it, dw, ew, cw);
  }

  /** What follows the body of a range loop. */
  lemma {:induction false} SimTurned(im: Image, s: State, n: nat, t0: State, u1: State, u2: State, stm: Stm, k: nat,
          mid: int, end: int, fr: Frame, pl: Place, loop: Loop, fuel: nat, st: Store, it: Items, dw: int, ew: int,
          cw: int)
    returns (u: State)
    requires ForOk(stm, fr, pl) && ForLoaded(im, k, stm.step, ForBody(stm, k), end)
    requires var inner := InLoop(ForContinue(k, stm.step), ForEnd(k, stm.step));
             FlowDone(im, s, n, fuel, u1, u2, mid, fr, inner, ExecBlock(fuel, stm.body, st[stm.slot := cw]))
    requires !ExecBlock(fuel, stm.body, st[stm.slot := cw]).Returned?
    requires n > 0 && fuel > 0 && mid == im.labels[ForContinue(k, stm.step)]
    requires u1.stack == OnStack(t0.stack, stm.step, it) && ItemsOk(u1, stm.slot, stm.ty, stm.step, it, dw, ew, cw)
    requires Keeps(t0, u1, fr) && |t0.stack| + Max(8, 5 + NeedBlock(stm.body)) <= MAX_OPERANDS
    requires InRange(stm.ty, dw, cw, ew)
    ensures FlowDone(im, s, n - 1, fuel, t0, u, end, fr, loop, ExecRange(fuel, stm, cw, ew, dw, st))
    decreases fuel, stm, 0, 0
  {
    hide Read64, Get, Run, Step, Execute, Reaches, Spans, Loaded, Length, Represented, Keeps, CodeExpr, Eval,
      WellTyped, Sound, WellTypedBlock, SoundBlock, CodeBlock, ExecBlock, Need, NeedBlock, CodeForLoop, CodeForBody,
      CodeForPops, InRange, OnStack;
    u := u2;
    match ExecBlock(fuel, stm.body, st[stm.slot := cw])
    case Next(st2) => u := SimNext(im, s, n, t0, u1, u2, stm, k, end, fr, pl, loop, fuel, st2, it, dw, ew, cw);
    case Continued(st2) => u := SimNext(im, s, n, t0, u1, u2, stm, k, end, fr, pl, loop, fuel, st2, it, dw, ew, cw);
    case Broke(st2) =>
      u := DoForPops(im, s, n, u2, stm.step, end, t0.stack, it);
      SameStore(u2, u, fr, st2);
      KeepsTrans(t0, u1, u2, fr);
      KeepsTrans(t0, u2, u, fr);
      ReachesWeaken(im.code, s, n + 1, n - 1, u);
    case Raised(f) => ReachesWeaken(im.code, s, n, n - 1, u2);
    case OutOfFuel => ReachesWeaken(im.code, s, n + fuel, n - 1 + fuel, u2);
  }

  /** The next value, and the loop from there with a unit of fuel less. */
  lemma {:induction false} SimNext(im: Image, s: State, n: nat, t0: State, u1: State, u2: State, stm: Stm, k: nat,
          end: int, fr: Frame, pl: Place, loop: Loop, fuel: nat, st: Store, it: Items, dw: int, ew: int, cw: int)
    returns (u: State)
    requires ForOk(stm, fr, pl) && ForLoaded(im, k, stm.step, ForBody(stm, k), end)
    requires n > 0 && fuel > 0 && Arrives(im, s, n, u1, u2, fr, st)
    requires u2.stack == u1.stack && u2.pc == im.labels[ForContinue(k, stm.step)]
    requires u1.stack == OnStack(t0.stack, stm.step, it) && ItemsOk(u1, stm.slot, stm.ty, stm.step, it, dw, ew, cw)
    requires Keeps(t0, u1, fr) && |t0.stack| + Max(8, 5 + NeedBlock(stm.body)) <= MAX_OPERANDS
    ensures FlowDone(im, s, n - 1, fuel, t0, u, end, fr, loop, ExecRange(fuel - 1, stm, ToWord(cw + dw), ew, dw, st))
    decreases fuel - 1, stm, 3
  {
    hide Read64, Get, Run, Step, Execute, Reaches, Spans, Loaded, Length, Represented, Keeps, NeedBlock, CodeForLoop,
      CodeForBody, CodeForPops, OnStack, WellTyped, WellTypedBlock, Sound, ExecRange, FlowDone;
    KeepsFp(u1, u2, fr);
    KeepsTrans(t0, u1, u2, fr);
    var u3, it' := DoForNext(im, s, n, u2, stm.slot, stm.ty, stm.step, k, end, t0.stack, it, dw, ew, cw);
    SameStore(u2, u3, fr, st);
    KeepsTrans(t0, u2, u3, fr);
    ReachesWeaken(im.code, s, n + 3, n, u3);
    u := SimRange(im, s, n, t0, u3, stm, k, end, fr, pl, loop, fuel - 1, st, it', dw, ew, ToWord(cw + dw));
    FuelUp(im, s, n, fuel, t0, u, end, fr, loop, ExecRange(fuel - 1, stm, ToWord(cw + dw), ew, dw, st));
  }

  lemma {:induction false} FuelUp(im: Image, s: State, n: nat, fuel: nat, t: State, u: State, end: int, fr: Frame,
          loop: Loop, r: Flow)
    requires n > 0 && fuel > 0 && FlowDone(im, s, n, fuel - 1, t, u, end, fr, loop, r)
    ensures FlowDone(im, s, n - 1, fuel, t, u, end, fr, loop, r)
  {
    hide Run, Get, Represented, Read64, Keeps;
    if r.OutOfFuel? {
      ReachesWeaken(im.code, s, n + fuel - 1, n - 1 + fuel, u);
    } else {
      ReachesWeaken(im.code, s, n, n - 1, u);
    }
  }

  /** Statements of a scope method never return. */
  lemma {:induction false} NoReturn(ss: seq<Stm>, fr: Frame, pl: Place, fuel: nat, st: Store)
    requires WellTypedBlock(ss, fr, pl) && !pl.inFunction
    ensures !ExecBlock(fuel, ss, st).Returned?
    decreases fuel, ss, 0
  {
    hide Eval, WellTyped;
    if ss != [] {
      NoReturnStm(ss[0], fr, pl, fuel, st);
      match Exec(fuel, ss[0], st)
      case Next(st1) => NoReturn(ss[1..], fr, pl, fuel, st1);
      case _ =>
    }
  }

  lemma {:induction false} NoReturnStm(s: Stm, fr: Frame, pl: Place, fuel: nat, st: Store)
    requires WellTypedStm(s, fr, pl) && !pl.inFunction
    ensures !Exec(fuel, s, st).Returned?
    decreases fuel, s, 2
  {
    hide Eval, WellTyped, EvalRight;
    match s
    case Block(ss) => NoReturn(ss, fr, pl, fuel, st);
    case If(c, thn, els) =>
      if Eval(c, st).Ok? {
        NoReturn(thn, fr, pl, fuel, Eval(c, st).value.1);
        if els.Some? {
          NoReturnStm(els.value, fr, pl, fuel, Eval(c, st).value.1);
        }
      }
    case While(c, body) =>
      if fuel > 0 && Eval(c, st).Ok? {
        var st1 := Eval(c, st).value.1;
        NoReturn(body, fr, pl.(inLoop := true), fuel, st1);
        match ExecBlock(fuel, body, st1)
        case Next(st2) => NoReturnStm(s, fr, pl, fuel - 1, st2);
        case Continued(st2) => NoReturnStm(s, fr, pl, fuel - 1, st2);
        case _ =>
      }
    case For(_, _, a, b, step, _) =>
      if EvalStep(step, st).Ok? && Eval(b, EvalStep(step, st).value.1).Ok? {
        var st2 := Eval(b, EvalStep(step, st).value.1).value.1;
        if Eval(a, st2).Ok? {
          NoReturnRange(s, fr, pl, fuel, Eval(a, st2).value.0, Eval(b, EvalStep(step, st).value.1).value.0,
                        EvalStep(step, st).value.0, Eval(a, st2).value.1);
        }
      }
    case _ =>
  }

  lemma {:induction false} NoReturnRange(s: Stm, fr: Frame, pl: Place, fuel: nat, cur: int, end: int, step: int,
          st: Store)
    requires s.For? && WellTypedStm(s, fr, pl) && !pl.inFunction
    ensures !ExecRange(fuel, s, cur, end, step, st).Returned?
    decreases fuel, s, 1
  {
    hide Eval, WellTyped;
    if fuel > 0 && InRange(s.ty, step, cur, end) {
      var st1 := st[s.slot := cur];
      NoReturn(s.body, fr, pl.(inLoop := true), fuel, st1);
      match ExecBlock(fuel, s.body, st1)
      case Next(st2) => NoReturnRange(s, fr, pl, fuel - 1, ToWord(cur + step), end, step, st2);
      case Continued(st2) => NoReturnRange(s, fr, pl, fuel - 1, ToWord(cur + step), end, step, st2);
      case _ =>
    }
  }
}
