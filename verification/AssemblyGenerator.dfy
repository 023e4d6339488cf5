/** The generator itself: it appends to `assembly` and bumps `labelCounter`, item by item.
    Every compile method is proved to append exactly the code CodeGen.dfy specifies. */
module AssemblyGenerator {
  import opened Words
  import opened Isa
  import opened Source
  import opened CodeGen
  import opened ArrayCode

  /** The items with the code of `a` appended. */
  function Then(items: seq<Item>, a: Asm): seq<Item> {
    items + Flatten(a)
  }

  lemma {:induction false} ThenDone(items: seq<Item>)
    ensures Then(items, Done) == items
  {
  }

  lemma {:induction false} ThenFromNothing(a: Asm)
    ensures Then([], a) == Flatten(a)
  {
  }

  /** Once the code `a` is appended, the rest of a sequence is what is left of it. */
  lemma {:induction false} ThenSeq(was: seq<Item>, now: seq<Item>, a: Asm, rest: Asm)
    requires now == Then(was, a)
    ensures Then(now, rest) == Then(was, Seq(a, rest))
  {
    assert was + Flatten(a) + Flatten(rest) == was + (Flatten(a) + Flatten(rest));
  }

  lemma {:induction false} ThenOnly(items: seq<Item>, a: Asm)
    ensures Then(items, Seq(a, Done)) == Then(items, a)
  {
    assert Flatten(Seq(a, Done)) == Flatten(a) + [];
  }

  lemma {:induction false} ThenItem(was: seq<Item>, it: Item, rest: Asm, code: Asm)
    requires Flatten(code) == [it] + Flatten(rest)
    ensures Then(was + [it], rest) == Then(was, code)
  {
    assert was + [it] + Flatten(rest) == was + ([it] + Flatten(rest));
  }

  lemma {:induction false} ArithShape(op: BinOp, left: Type, r: Expr, n: nat)
    requires op != LogicOr && op != LogicAnd
    ensures CodeRight(op, left, r, n) ==
      ConvIf(left, TInt, Seq(CodeExpr(r, n), ConvIf(TypeOf(r), TInt, Ins(Arith(Operator(op)), Done))))
    ensures LabelsOfRight(op, r) == LabelsOf(r)
  {
    hide CodeExpr, LabelsOf, ConvIf;
  }

  lemma {:induction false} TernaryShape(c: Expr, t: Expr, f: Expr, n: nat, n1: nat, n2: nat, n3: nat, isTrue: Label,
          end: Label)
    requires isTrue == CodeLabel(TernaryTrueKind, n) && end == CodeLabel(TernaryEndKind, n + 1)
    requires n1 == n + 2 && n2 == n1 + LabelsOf(c) && n3 == n2 + LabelsOf(f)
    ensures var result := TernaryType(TypeOf(t), TypeOf(f));
      CodeExpr(Ternary(c, t, f), n) ==
        Seq(CodeExpr(c, n1), Ins(Jnz(isTrue), Seq(CodeExpr(f, n2), ConvIf(TypeOf(f), result, Ins(Jmp(end),
          Def(isTrue, Seq(CodeExpr(t, n3), ConvIf(TypeOf(t), result, Def(end, Done)))))))))
    ensures n + LabelsOf(Ternary(c, t, f)) == n3 + LabelsOf(t)
  {
    hide ConvIf, TypeOf;
  }

  /** The labels of a range loop; the first, third and fourth are used only when a step is written. */
  datatype RangeLabels =
    RangeLabels(stepValid: Label, start: Label, negativeStep: Label, conditionJoin: Label, onContinue: Label,
      end: Label)

  predicate Drawn(n: nat, step: Option<Expr>, labels: RangeLabels) {
    && labels.start == ForStart(n, step) && labels.onContinue == ForContinue(n, step) && labels.end == ForEnd(n, step)
    && (step.Some? ==>
        labels.stepValid == StepValid(n) && labels.negativeStep == NegativeStep(n)
          && labels.conditionJoin == ConditionJoin(n))
  }

  class Generator {
    var assembly: seq<Item>
    var labelCounter: nat
    var scopeFunctionCounter: nat
    var pendingScopeFunctions: seq<ScopeMethod>
    var isCompilingScopeFunctions: bool

    /** The code the compile methods in progress have still to emit. */
    ghost var plan: Asm

    constructor ()
      ensures assembly == [] && labelCounter == 0 && scopeFunctionCounter == 0 && pendingScopeFunctions == []
      ensures !isCompilingScopeFunctions
    {
      assembly := [];
      labelCounter := 0;
      scopeFunctionCounter := 0;
      pendingScopeFunctions := [];
      isCompilingScopeFunctions := false;
      plan := Done;
    }

    /** What compileStmFor does at the moment. */
    ghost function Mode(): RangeMode
      reads this
    {
      if isCompilingScopeFunctions then Inlined else Registered(scopeFunctionCounter)
    }

    // ---------------------------------------------------------------- programs

    /** compileProgram, for top-level statements that are blocks or range loops: a call for each, a halt, the
        methods the calls go to, and then the user functions. */
    method CompileProgram(ms: seq<ScopeMethod>, fs: seq<FunctionDecl>)
      requires assembly == [] && labelCounter == 0 && scopeFunctionCounter == 0 && pendingScopeFunctions == []
      requires !isCompilingScopeFunctions
      modifies this
      ensures assembly == ProgramItems(ms, fs, |fs|)
      ensures scopeFunctionCounter == |ms| + RangesBefore(fs, |fs|)
    {
      hide Then, Flatten, DeclItems;
      CompileGlobalStatements(ms);
      CompilePendingScopeFunctions();
      for i := 0 to |fs|
        invariant assembly == ProgramItems(ms, fs, i) && !isCompilingScopeFunctions
        invariant labelCounter == CounterAt(ms, |ms|) + LabelsBefore(fs, i)
        invariant scopeFunctionCounter == |ms| + RangesBefore(fs, i)
      {
        CompileUserDefinedFunction(fs[i]);
      }
    }

    /** The statements at the top level, and the halt. */
    method CompileGlobalStatements(ms: seq<ScopeMethod>)
      requires assembly == [] && scopeFunctionCounter == 0 && pendingScopeFunctions == []
      requires !isCompilingScopeFunctions
      modifies this`assembly, this`plan, this`scopeFunctionCounter, this`pendingScopeFunctions
      ensures assembly == Flatten(GlobalCode(0, |ms|)) && scopeFunctionCounter == |ms| && pendingScopeFunctions == ms
    {
      hide Then, Flatten;
      plan := GlobalCode(0, |ms|);
      for k := 0 to |ms|
        invariant plan == GlobalCode(k, |ms|) && Then(assembly, plan) == Then([], GlobalCode(0, |ms|))
        invariant scopeFunctionCounter == k && pendingScopeFunctions == ms[..k]
      {
        RegisterScopeFunction(ms[k]);
      }
      Emit(Halt);
      ThenDone(assembly);
      ThenFromNothing(GlobalCode(0, |ms|));
    }

    method CompileUserDefinedFunction(f: FunctionDecl)
      requires !isCompilingScopeFunctions
      modifies this`assembly, this`plan, this`labelCounter, this`scopeFunctionCounter, this`pendingScopeFunctions
      ensures assembly == old(assembly) + DeclItems(f, old(labelCounter), old(scopeFunctionCounter))
      ensures labelCounter == old(labelCounter) + LabelsInBlock(f.body, false)
      ensures scopeFunctionCounter == old(scopeFunctionCounter) + |RangesOfBlock(f.body)|
      ensures pendingScopeFunctions == old(pendingScopeFunctions) + RangesOfBlock(f.body)
    {
      CompileFunctionDeclaration(MethodLabel(Function(f.name)), f.body, f.args, f.locals, f.isVoid);
    }

    method RegisterScopeFunction(m: ScopeMethod)
      requires plan.Ins? && plan.i == Call(MethodLabel(Scope(scopeFunctionCounter)))
      modifies this`assembly, this`plan, this`scopeFunctionCounter, this`pendingScopeFunctions
      ensures pendingScopeFunctions == old(pendingScopeFunctions) + [m]
      ensures scopeFunctionCounter == old(scopeFunctionCounter) + 1
      ensures plan == old(plan.rest) && Then(assembly, plan) == Then(old(assembly), old(plan))
    {
      pendingScopeFunctions := pendingScopeFunctions + [m];
      Emit(Call(MethodLabel(Scope(scopeFunctionCounter))));
      scopeFunctionCounter := scopeFunctionCounter + 1;
    }

    method CompilePendingScopeFunctions()
      requires assembly == ItemsUpTo(pendingScopeFunctions, 0) && labelCounter == 0
      modifies this`assembly, this`plan, this`labelCounter, this`scopeFunctionCounter, this`pendingScopeFunctions,
        this`isCompilingScopeFunctions
      ensures assembly == ItemsUpTo(pendingScopeFunctions, |pendingScopeFunctions|)
      ensures labelCounter == CounterAt(pendingScopeFunctions, |pendingScopeFunctions|) && !isCompilingScopeFunctions
      ensures pendingScopeFunctions == old(pendingScopeFunctions) && scopeFunctionCounter == old(scopeFunctionCounter)
    {
      isCompilingScopeFunctions := true;
      for i := 0 to |pendingScopeFunctions|
        invariant pendingScopeFunctions == old(pendingScopeFunctions) && isCompilingScopeFunctions
        invariant assembly == ItemsUpTo(pendingScopeFunctions, i) && labelCounter == CounterAt(pendingScopeFunctions, i)
        invariant scopeFunctionCounter == old(scopeFunctionCounter)
      {
        CompileScopeFunction(pendingScopeFunctions[i], i);
      }
      isCompilingScopeFunctions := false;
    }

    /** compileFunctionDeclaration for a scope method. */
    method CompileScopeFunction(m: ScopeMethod, i: nat)
      requires isCompilingScopeFunctions
      modifies this`assembly, this`plan, this`labelCounter, this`scopeFunctionCounter, this`pendingScopeFunctions
      ensures assembly == old(assembly) + ([MethodDef(MethodLabel(Scope(i)), 0, m.locals)]
        + Flatten(MethodCode(m, old(labelCounter))))
      ensures labelCounter == old(labelCounter) + LabelsOfStm(m.body)
      ensures scopeFunctionCounter == old(scopeFunctionCounter) && pendingScopeFunctions == old(pendingScopeFunctions)
    {
      hide CodeStm, StmCode;
      assembly := assembly + [MethodDef(MethodLabel(Scope(i)), 0, m.locals)];
      ghost var was := assembly;
      SameCode(m.body, labelCounter, Inlined, NoLoop);
      plan := MethodCode(m, labelCounter);
      CompileStm(m.body, NoLoop);
      Emit(Ret);
      ThenDone(assembly);
      assert assembly == Then(was, MethodCode(m, old(labelCounter)));
    }

    /** compileFunctionDeclaration for a user function. */
    method CompileFunctionDeclaration(name: Label, ss: seq<Stm>, args: Byte, locals: int, includeDefaultReturn: bool)
      requires !isCompilingScopeFunctions
      modifies this`assembly, this`plan, this`labelCounter, this`scopeFunctionCounter, this`pendingScopeFunctions
      ensures var body := BlockCode(ss, old(labelCounter), Registered(old(scopeFunctionCounter)), NoLoop);
        assembly == old(assembly) + ([MethodDef(name, args, locals)]
          + Flatten(if includeDefaultReturn then Seq(body, Ins(Ret, Done)) else body))
      ensures labelCounter == old(labelCounter) + LabelsInBlock(ss, false)
      ensures scopeFunctionCounter == old(scopeFunctionCounter) + |RangesOfBlock(ss)|
      ensures pendingScopeFunctions == old(pendingScopeFunctions) + RangesOfBlock(ss)
    {
      hide BlockCode, LabelsInBlock, RangesOfBlock;
      assembly := assembly + [MethodDef(name, args, locals)];
      ghost var was := assembly;
      ghost var body := BlockCode(ss, labelCounter, Registered(scopeFunctionCounter), NoLoop);
      ghost var code := if includeDefaultReturn then Seq(body, Ins(Ret, Done)) else body;
      plan := code;
      if includeDefaultReturn {
        CompileInnerBlock(ss, NoLoop);
        Emit(Ret);
      } else {
        CompileBlock(ss, NoLoop);
      }
      ThenDone(assembly);
      assert assembly == Then(was, code);
    }

    // ---------------------------------------------------------------- emitting

    method Emit(i: Instr<Label>)
      requires plan.Ins? && plan.i == i
      modifies this`assembly, this`plan
      ensures assembly == Then(old(assembly), Ins(i, Done))
      ensures plan == old(plan).rest && Then(assembly, plan) == Then(old(assembly), old(plan))
    {
      ThenItem(assembly, Instruction(i), plan.rest, plan);
      ThenItem(assembly, Instruction(i), Done, Ins(i, Done));
      ThenDone(assembly + [Instruction(i)]);
      assembly := assembly + [Instruction(i)];
      plan := plan.rest;
    }

    method EmitLabel(l: Label)
      requires plan.Def? && plan.l == l
      modifies this`assembly, this`plan
      ensures assembly == Then(old(assembly), Def(l, Done))
      ensures plan == old(plan).rest && Then(assembly, plan) == Then(old(assembly), old(plan))
    {
      ThenItem(assembly, LabelDef(l), plan.rest, plan);
      ThenItem(assembly, LabelDef(l), Done, Def(l, Done));
      ThenDone(assembly + [LabelDef(l)]);
      assembly := assembly + [LabelDef(l)];
      plan := plan.rest;
    }

    method GenerateLabel(kind: LabelKind) returns (l: Label)
      modifies this`labelCounter
      ensures l == CodeLabel(kind, old(labelCounter)) && labelCounter == old(labelCounter) + 1
    {
      l := CodeLabel(kind, labelCounter);
      labelCounter := labelCounter + 1;
    }

    method ConvertIfRequired(from: Type, to: Type, ghost rest: Asm)
      requires plan == ConvIf(from, to, rest)
      modifies this`assembly, this`plan
      ensures plan == rest && Then(assembly, plan) == Then(old(assembly), old(plan))
    {
      if AsmTy(from) != AsmTy(to) {
        Emit(Conv(AsmTy(to)));
      }
    }

    // ---------------------------------------------------------------- expressions

    method CompileExpr(e: Expr)
      requires plan.Seq? && plan.first == CodeExpr(e, labelCounter)
      modifies this`assembly, this`plan, this`labelCounter
      ensures assembly == Then(old(assembly), CodeExpr(e, old(labelCounter)))
      ensures plan == old(plan).rest && Then(assembly, plan) == Then(old(assembly), old(plan))
      ensures labelCounter == old(labelCounter) + LabelsOf(e)
      decreases e, 2
    {
      hide Then, Flatten;
      ghost var code, rest := plan.first, plan.rest;
      plan := code;
      match e {
        case IntLit(v) => Emit(Push(I32, v));
        case BoolLit(b) => Emit(Push(UI32, Flag(b)));
        case CharLit(c) => Emit(Push(UI32, c));
        case Local(slot, t) => Emit(LoadL(AsmTy(t), slot));
        case Unary(op, x) => CompileUnary(op, x);
        case IncDec(prefix, up, slot, t) => CompileIncDec(prefix, up, slot, t);
        case Binary(op, l, r) =>
          CompileExpr(l);
          CompileRight(op, TypeOf(l), r);
        case Ternary(c, t, f) => CompileTernary(c, t, f);
        case Cast(t, x) =>
          CompileExpr(x);
          ConvertIfRequired(TypeOf(x), t, Done);
      }
      ThenDone(assembly);
      ThenSeq(old(assembly), assembly, code, rest);
      plan := rest;
    }

    method CompileUnary(op: UnOp, x: Expr)
      requires plan == UnaryTemplate(op, TypeOf(x), labelCounter,
        CodeExpr(x, if op == LogicNot then labelCounter + 2 else labelCounter))
      modifies this`assembly, this`plan, this`labelCounter
      ensures plan == Done && assembly == Then(old(assembly), old(plan))
      ensures labelCounter == old(labelCounter) + LabelsOf(x) + if op == LogicNot then 2 else 0
      decreases x, 3
    {
      hide Then, Flatten, CodeExpr, LabelsOf, TypeOf;
      match op {
        case UPlus =>
          ThenOnly(assembly, plan);
          plan := Seq(plan, Done);
          CompileExpr(x);
        case UMinus =>
          Emit(Push(AsmTy(TypeOf(x)), 0));
          CompileExpr(x);
          Emit(Arith(SUB));
        case BitwiseNot =>
          CompileExpr(x);
          ConvertIfRequired(TypeOf(x), TInt, Ins(Not, Done));
          Emit(Not);
        case LogicNot =>
          var isTrue := GenerateLabel(LogicalNotTrueKind);
          var end := GenerateLabel(LogicalNotEndKind);
          CompileExpr(x);
          Emit(Jez(isTrue));
          Emit(Push(UI32, 0));
          Emit(Jmp(end));
          EmitLabel(isTrue);
          Emit(Push(UI32, 1));
          EmitLabel(end);
      }
      ThenDone(assembly);
    }

    method CompileIncDec(prefix: bool, up: bool, slot: int, t: Type)
      requires plan == IncDecTemplate(prefix, up, slot, t)
      modifies this`assembly, this`plan
      ensures plan == Done && assembly == Then(old(assembly), old(plan))
    {
      hide Then, Flatten;
      Emit(AddrL(slot));
      Emit(Dup(0));
      Emit(Load(AsmTy(t)));
      if prefix {
        Emit(Push(AsmTy(t), 1));
        Emit(Arith(if up then ADD else SUB));
        Emit(Dup(0));
        Emit(RotU(3));
      } else {
        Emit(Swap);
        Emit(Dup(1));
        Emit(Push(AsmTy(t), 1));
        Emit(Arith(if up then ADD else SUB));
      }
      Emit(Store);
      ThenDone(assembly);
    }

    /** compileExprBinaryWithLeftExprOnStack: the left operand is on the operand stack already. */
    method CompileRight(op: BinOp, left: Type, r: Expr)
      requires plan == CodeRight(op, left, r, labelCounter)
      modifies this`assembly, this`plan, this`labelCounter
      ensures plan == Done && assembly == Then(old(assembly), old(plan))
      ensures labelCounter == old(labelCounter) + LabelsOfRight(op, r)
      decreases r, 3
    {
      hide Then, Flatten, CodeExpr, LabelsOf, TypeOf;
      match op {
        case LogicOr => CompileOr(left, r);
        case LogicAnd => CompileAnd(left, r);
        case _ => CompileArith(op, left, r);
      }
      ThenDone(assembly);
    }

    method CompileArith(op: BinOp, left: Type, r: Expr)
      requires op != LogicOr && op != LogicAnd && plan == CodeRight(op, left, r, labelCounter)
      modifies this`assembly, this`plan, this`labelCounter
      ensures plan == Done && assembly == Then(old(assembly), old(plan))
      ensures labelCounter == old(labelCounter) + LabelsOfRight(op, r)
      decreases r, 3, 0
    {
      hide *;
      ArithShape(op, left, r, labelCounter);
      ghost var last := Ins(Arith(Operator(op)), Done);
      ConvertIfRequired(left, TInt, Seq(CodeExpr(r, labelCounter), ConvIf(TypeOf(r), TInt, last)));
      CompileExpr(r);
      ConvertIfRequired(TypeOf(r), TInt, last);
      Emit(Arith(Operator(op)));
      ThenDone(assembly);
    }

    method CompileOr(left: Type, r: Expr)
      requires plan == CodeRight(LogicOr, left, r, labelCounter)
      modifies this`assembly, this`plan, this`labelCounter
      ensures plan == Done && assembly == Then(old(assembly), old(plan))
      ensures labelCounter == old(labelCounter) + LabelsOfRight(LogicOr, r)
      decreases r, 3, 0
    {
      hide Then, Flatten, CodeExpr, LabelsOf, TypeOf;
      var isTrue := GenerateLabel(LogicalOrTrueKind);
      var end := GenerateLabel(LogicalOrEndKind);
      Emit(Jnz(isTrue));
      CompileExpr(r);
      Emit(Jnz(isTrue));
      Emit(Push(UI32, 0));
      Emit(Jmp(end));
      EmitLabel(isTrue);
      Emit(Push(UI32, 1));
      EmitLabel(end);
      ThenDone(assembly);
    }

    method CompileAnd(left: Type, r: Expr)
      requires plan == CodeRight(LogicAnd, left, r, labelCounter)
      modifies this`assembly, this`plan, this`labelCounter
      ensures plan == Done && assembly == Then(old(assembly), old(plan))
      ensures labelCounter == old(labelCounter) + LabelsOfRight(LogicAnd, r)
      decreases r, 3, 0
    {
      hide Then, Flatten, CodeExpr, LabelsOf, TypeOf;
      var isFalse := GenerateLabel(LogicalAndFalseKind);
      var end := GenerateLabel(LogicalAndEndKind);
      Emit(Jez(isFalse));
      CompileExpr(r);
      Emit(Jez(isFalse));
      Emit(Push(UI32, 1));
      Emit(Jmp(end));
      EmitLabel(isFalse);
      Emit(Push(UI32, 0));
      EmitLabel(end);
      ThenDone(assembly);
    }

    method CompileTernary(c: Expr, t: Expr, f: Expr)
      requires plan == CodeExpr(Ternary(c, t, f), labelCounter)
      modifies this`assembly, this`plan, this`labelCounter
      ensures plan == Done && assembly == Then(old(assembly), old(plan))
      ensures labelCounter == old(labelCounter) + LabelsOf(Ternary(c, t, f))
      decreases Ternary(c, t, f), 1
    {
      hide *;
      var result := TernaryType(TypeOf(t), TypeOf(f));
      ghost var n, n1, n2, n3 := labelCounter, labelCounter + 2, labelCounter + 2 + LabelsOf(c),
        labelCounter + 2 + LabelsOf(c) + LabelsOf(f);
      var isTrue := GenerateLabel(TernaryTrueKind);
      var end := GenerateLabel(TernaryEndKind);
      TernaryShape(c, t, f, n, n1, n2, n3, isTrue, end);
      ghost var thn := Seq(CodeExpr(t, n3), ConvIf(TypeOf(t), result, Def(end, Done)));
      CompileExpr(c);
      Emit(Jnz(isTrue));
      CompileExpr(f);
      ConvertIfRequired(TypeOf(f), result, Ins(Jmp(end), Def(isTrue, thn)));
      Emit(Jmp(end));
      EmitLabel(isTrue);
      CompileExpr(t);
      ConvertIfRequired(TypeOf(t), result, Def(end, Done));
      EmitLabel(end);
      ThenDone(assembly);
    }

    // ---------------------------------------------------------------- statements

    /** `loop` is what lookupLoopScope finds: the labels of the nearest enclosing loop. */
    method CompileStm(s: Stm, loop: Loop)
      requires plan.Seq? && plan.first == StmCode(s, labelCounter, Mode(), loop)
      modifies this`assembly, this`plan, this`labelCounter, this`scopeFunctionCounter, this`pendingScopeFunctions
      ensures assembly == Then(old(assembly), StmCode(s, old(labelCounter), old(Mode()), loop))
      ensures plan == old(plan).rest && Then(assembly, plan) == Then(old(assembly), old(plan))
      ensures labelCounter == old(labelCounter) + LabelsIn(s, isCompilingScopeFunctions)
      ensures HasRegistered(old(scopeFunctionCounter), old(pendingScopeFunctions), RangesOf(s))
      decreases s, 2
    {
      hide Then, Flatten, CodeExpr, LabelsOf;
      ghost var code, rest := plan.first, plan.rest;
      plan := code;
      match s {
        case VarDecl(slot, t, init) =>
          if init.Some? {
            CompileAssign(slot, t, init.value);
          }
        case Assign(slot, t, e) => CompileAssign(slot, t, e);
        case OpAssign(slot, t, op, e) => CompileOpAssign(slot, t, op, e);
        case Bump(up, slot, t) => CompileBump(up, slot, t);
        case Block(ss) => CompileBlock(ss, loop);
        case If(c, thn, els) => CompileIf(c, thn, els, loop);
        case While(c, ss) => CompileWhile(c, ss, loop);
        case For(slot, t, a, b, step, ss) =>
          if isCompilingScopeFunctions {
            CompileFor(slot, t, a, b, step, ss, loop);
          } else {
            RegisterScopeFunction(ScopeMethod(s, 0));
          }
        case Break =>
          if loop.InLoop? {
            Emit(Jmp(loop.onBreak));
          }
        case Continue =>
          if loop.InLoop? {
            Emit(Jmp(loop.onContinue));
          }
        case Return(e, t) =>
          if e.Some? {
            CompileExpr(e.value);
            ConvertIfRequired(TypeOf(e.value), t, Ins(Ret, Done));
          }
          Emit(Ret);
      }
      ThenDone(assembly);
      ThenSeq(old(assembly), assembly, code, rest);
      plan := rest;
    }

    /** The range loops that were met since are registered, unless they were compiled on the spot. */
    ghost predicate HasRegistered(counter: nat, pending: seq<ScopeMethod>, ranges: seq<ScopeMethod>)
      reads this
    {
      if isCompilingScopeFunctions then scopeFunctionCounter == counter && pendingScopeFunctions == pending
      else scopeFunctionCounter == counter + |ranges| && pendingScopeFunctions == pending + ranges
    }

    method CompileBlock(ss: seq<Stm>, loop: Loop)
      requires plan == BlockCode(ss, labelCounter, Mode(), loop)
      modifies this`assembly, this`plan, this`labelCounter, this`scopeFunctionCounter, this`pendingScopeFunctions
      ensures plan == Done && assembly == Then(old(assembly), old(plan))
      ensures labelCounter == old(labelCounter) + LabelsInBlock(ss, isCompilingScopeFunctions)
      ensures HasRegistered(old(scopeFunctionCounter), old(pendingScopeFunctions), RangesOfBlock(ss))
      decreases ss, 0
    {
      hide Then, Flatten, StmCode, LabelsIn, RangesOf;
      if ss == [] {
        ThenDone(assembly);
      } else {
        CompileStm(ss[0], loop);
        CompileBlock(ss[1..], loop);
      }
    }

    method CompileAssign(slot: int, t: Type, e: Expr)
      requires plan == AssignTemplate(slot, TypeOf(e), t, CodeExpr(e, labelCounter))
      modifies this`assembly, this`plan, this`labelCounter
      ensures plan == Done && assembly == Then(old(assembly), old(plan))
      ensures labelCounter == old(labelCounter) + LabelsOf(e)
    {
      hide Then, Flatten;
      CompileExpr(e);
      ConvertIfRequired(TypeOf(e), t, Ins(StoreL(slot), Done));
      Emit(StoreL(slot));
      ThenDone(assembly);
    }

    method CompileOpAssign(slot: int, t: Type, op: BinOp, e: Expr)
      requires plan == OpAssignTemplate(slot, t, op, CodeRight(op, t, e, labelCounter))
      modifies this`assembly, this`plan, this`labelCounter
      ensures plan == Done && assembly == Then(old(assembly), old(plan))
      ensures labelCounter == old(labelCounter) + LabelsOfRight(op, e)
    {
      hide Then, Flatten, CodeRight, LabelsOfRight, CodeExpr, LabelsOf, TypeOf;
      Emit(AddrL(slot));
      Emit(Dup(0));
      Emit(Load(AsmTy(t)));
      ghost var was, code, rest := assembly, plan.first, plan.rest;
      plan := code;
      CompileRight(op, t, e);
      ThenSeq(was, assembly, code, rest);
      plan := rest;
      ConvertIfRequired(if IsLogic(op) then TBool else TInt, t, Ins(Store, Done));
      Emit(Store);
      ThenDone(assembly);
    }

    /** ++ or -- as a statement: the value is not kept. */
    method CompileBump(up: bool, slot: int, t: Type)
      requires plan == BumpTemplate(up, slot, t)
      modifies this`assembly, this`plan
      ensures plan == Done && assembly == Then(old(assembly), old(plan))
    {
      hide Then, Flatten;
      Emit(AddrL(slot));
      Emit(Dup(0));
      Emit(Load(AsmTy(t)));
      Emit(Push(AsmTy(t), 1));
      Emit(Arith(if up then ADD else SUB));
      Emit(Store);
      ThenDone(assembly);
    }

    /** A block in the middle of other code. */
    method CompileInnerBlock(ss: seq<Stm>, loop: Loop)
      requires plan.Seq? && plan.first == BlockCode(ss, labelCounter, Mode(), loop)
      modifies this`assembly, this`plan, this`labelCounter, this`scopeFunctionCounter, this`pendingScopeFunctions
      ensures plan == old(plan).rest && Then(assembly, plan) == Then(old(assembly), old(plan))
      ensures labelCounter == old(labelCounter) + LabelsInBlock(ss, isCompilingScopeFunctions)
      ensures HasRegistered(old(scopeFunctionCounter), old(pendingScopeFunctions), RangesOfBlock(ss))
      decreases ss, 1
    {
      hide Then, Flatten, BlockCode, LabelsInBlock, RangesOfBlock;
      ghost var code, rest := plan.first, plan.rest;
      plan := code;
      CompileBlock(ss, loop);
      ThenSeq(old(assembly), assembly, code, rest);
      plan := rest;
    }

    method CompileIf(c: Expr, thn: seq<Stm>, els: Option<Stm>, loop: Loop)
      requires plan == StmCode(If(c, thn, els), labelCounter, Mode(), loop)
      modifies this`assembly, this`plan, this`labelCounter, this`scopeFunctionCounter, this`pendingScopeFunctions
      ensures plan == Done && assembly == Then(old(assembly), old(plan))
      ensures labelCounter == old(labelCounter) + LabelsIn(If(c, thn, els), isCompilingScopeFunctions)
      ensures HasRegistered(old(scopeFunctionCounter), old(pendingScopeFunctions), RangesOf(If(c, thn, els)))
      decreases If(c, thn, els), 1
    {
      hide Then, Flatten, CodeExpr, LabelsOf, BlockCode, LabelsInBlock, RangesOfBlock, CodeStm, LabelsOfStm;
      CompileExpr(c);
      var end := GenerateLabel(IfEndKind);
      if els.None? {
        Emit(Jez(end));
        CompileInnerBlock(thn, loop);
      } else {
        CompileBranches(thn, els.value, end, loop, If(c, thn, els));
      }
      EmitLabel(end);
      ThenDone(assembly);
    }

    /** The branches of an if with else, up to the label behind them. */
    method CompileBranches(thn: seq<Stm>, els: Stm, end: Label, loop: Loop, ghost whole: Stm)
      requires whole.If? && whole.thn == thn && whole.els == Some(els)
      requires var n, other := labelCounter + 1, CodeLabel(IfElseKind, labelCounter);
        var code := StmCode(els, n + LabelsInBlock(thn, isCompilingScopeFunctions),
          Later(Mode(), |RangesOfBlock(thn)|), loop);
        plan == Ins(Jez(other), Seq(BlockCode(thn, n, Mode(), loop), Ins(Jmp(end), Def(other, Seq(code,
          Def(end, Done))))))
      modifies this`assembly, this`plan, this`labelCounter, this`scopeFunctionCounter, this`pendingScopeFunctions
      ensures plan == Def(end, Done) && Then(assembly, plan) == Then(old(assembly), old(plan))
      ensures labelCounter == old(labelCounter) + 1 + LabelsInBlock(thn, isCompilingScopeFunctions)
        + LabelsIn(els, isCompilingScopeFunctions)
      ensures HasRegistered(old(scopeFunctionCounter), old(pendingScopeFunctions), RangesOfBlock(thn) + RangesOf(els))
      decreases whole, 0
    {
      hide Then, Flatten, BlockCode, LabelsInBlock, RangesOfBlock, StmCode, LabelsIn, RangesOf;
      var other := GenerateLabel(IfElseKind);
      Emit(Jez(other));
      CompileInnerBlock(thn, loop);
      Emit(Jmp(end));
      EmitLabel(other);
      CompileStm(els, loop);
    }

    method CompileWhile(c: Expr, body: seq<Stm>, loop: Loop)
      requires plan == StmCode(While(c, body), labelCounter, Mode(), loop)
      modifies this`assembly, this`plan, this`labelCounter, this`scopeFunctionCounter, this`pendingScopeFunctions
      ensures plan == Done && assembly == Then(old(assembly), old(plan))
      ensures labelCounter == old(labelCounter) + LabelsIn(While(c, body), isCompilingScopeFunctions)
      ensures HasRegistered(old(scopeFunctionCounter), old(pendingScopeFunctions), RangesOf(While(c, body)))
      decreases While(c, body), 1
    {
      hide Then, Flatten, CodeExpr, LabelsOf, BlockCode, LabelsInBlock, RangesOfBlock, CodeStm, LabelsOfStm;
      var start := GenerateLabel(WhileStartKind);
      var end := GenerateLabel(WhileEndKind);
      EmitLabel(start);
      CompileExpr(c);
      Emit(Jez(end));
      CompileInnerBlock(body, InLoop(start, end));
      Emit(Jmp(start));
      EmitLabel(end);
      ThenDone(assembly);
    }

    method CompileFor(slot: int, t: Type, a: Expr, b: Expr, step: Option<Expr>, body: seq<Stm>, loop: Loop)
      requires isCompilingScopeFunctions && plan == CodeStm(For(slot, t, a, b, step, body), labelCounter, loop)
      modifies this`assembly, this`plan, this`labelCounter, this`scopeFunctionCounter, this`pendingScopeFunctions
      ensures plan == Done && assembly == Then(old(assembly), old(plan))
      ensures labelCounter == old(labelCounter) + LabelsOfStm(For(slot, t, a, b, step, body))
      ensures scopeFunctionCounter == old(scopeFunctionCounter) && pendingScopeFunctions == old(pendingScopeFunctions)
      decreases For(slot, t, a, b, step, body), 1
    {
      hide Then, Flatten, CodeExpr, LabelsOf, CodeForStep, CodeForBounds, CodeForLoop;
      ghost var n := labelCounter;
      var labels := DrawLabels(step);
      ghost var nb := n + ForLabels(step) + LabelsOfStep(step);
      ghost var loopCode := ForLoopCode(step, body, n, nb + LabelsOf(b) + LabelsOf(a));
      CompileForStep(t, step, labels, n, CodeForBounds(slot, t, a, b, nb, loopCode));
      CompileForBounds(slot, t, a, b, loopCode);
      CompileForLoop(step, body, labels, n);
      ThenDone(assembly);
    }

    method DrawLabels(step: Option<Expr>) returns (labels: RangeLabels)
      modifies this`labelCounter
      ensures Drawn(old(labelCounter), step, labels) && labelCounter == old(labelCounter) + ForLabels(step)
    {
      var stepValid, negativeStep, conditionJoin := StepValid(0), NegativeStep(0), ConditionJoin(0);
      if step.Some? {
        stepValid := GenerateLabel(ForStepValidKind);
      }
      var start := GenerateLabel(ForStartKind);
      if step.Some? {
        negativeStep := GenerateLabel(ForNegativeStepConditionKind);
        conditionJoin := GenerateLabel(ForConditionJoinKind);
      }
      var onContinue := GenerateLabel(ForContinueKind);
      var end := GenerateLabel(ForEndKind);
      labels := RangeLabels(stepValid, start, negativeStep, conditionJoin, onContinue, end);
    }

    method CompileForStep(t: Type, step: Option<Expr>, labels: RangeLabels, ghost n: nat, ghost rest: Asm)
      requires Drawn(n, step, labels) && labelCounter == n + ForLabels(step) && plan == CodeForStep(t, step, n, rest)
      modifies this`assembly, this`plan, this`labelCounter
      ensures plan == rest && Then(assembly, plan) == Then(old(assembly), old(plan))
      ensures labelCounter == old(labelCounter) + LabelsOfStep(step)
      decreases step, 0
    {
      hide Then, Flatten, CodeExpr, LabelsOf;
      if step.Some? {
        CompileExpr(step.value);
        ConvertIfRequired(TypeOf(step.value), t, AfterStep(t, labels, rest));
        Emit(Dup(0));
        Emit(Jnz(labels.stepValid));
        Emit(Throw(ZeroRangeStep));
        EmitLabel(labels.stepValid);
        Emit(Dup(0));
        Emit(Push(AsmTy(t), 0));
        Emit(Arith(CGE));
        Emit(Swap);
      } else {
        Emit(Push(AsmTy(t), 1));
      }
    }

    method CompileForBounds(slot: int, t: Type, a: Expr, b: Expr, ghost rest: Asm)
      requires plan == CodeForBounds(slot, t, a, b, labelCounter, rest)
      modifies this`assembly, this`plan, this`labelCounter
      ensures plan == rest && Then(assembly, plan) == Then(old(assembly), old(plan))
      ensures labelCounter == old(labelCounter) + LabelsOf(b) + LabelsOf(a)
    {
      hide Then, Flatten, CodeExpr, LabelsOf;
      ghost var start := Seq(CodeExpr(a, labelCounter + LabelsOf(b)), ConvIf(TypeOf(a), t, rest));
      CompileExpr(b);
      ConvertIfRequired(TypeOf(b), t, Ins(AddrL(slot), start));
      Emit(AddrL(slot));
      CompileExpr(a);
      ConvertIfRequired(TypeOf(a), t, rest);
    }

    method CompileForLoop(step: Option<Expr>, body: seq<Stm>, labels: RangeLabels, ghost n: nat)
      requires isCompilingScopeFunctions
      requires Drawn(n, step, labels) && plan == ForLoopCode(step, body, n, labelCounter)
      modifies this`assembly, this`plan, this`labelCounter, this`scopeFunctionCounter, this`pendingScopeFunctions
      ensures plan == Done && Then(assembly, Done) == Then(old(assembly), old(plan))
      ensures labelCounter == old(labelCounter) + LabelsOfBlock(body)
      ensures scopeFunctionCounter == old(scopeFunctionCounter) && pendingScopeFunctions == old(pendingScopeFunctions)
      decreases body, 3
    {
      hide Then, Flatten, CodeBlock, LabelsOfBlock, CodeForBody;
      EmitLabel(labels.start);
      Emit(Dup(2));
      Emit(Dup(1));
      EmitForTest(step, labels, CodeForBody(n, step,
        CodeBlock(body, labelCounter, InLoop(labels.onContinue, labels.end))));
      CompileForBody(step, body, labels, n);
    }

    method CompileForBody(step: Option<Expr>, body: seq<Stm>, labels: RangeLabels, ghost n: nat)
      requires isCompilingScopeFunctions && Drawn(n, step, labels)
      requires plan == CodeForBody(n, step, CodeBlock(body, labelCounter, InLoop(labels.onContinue, labels.end)))
      modifies this`assembly, this`plan, this`labelCounter, this`scopeFunctionCounter, this`pendingScopeFunctions
      ensures plan == Done && Then(assembly, Done) == Then(old(assembly), old(plan))
      ensures labelCounter == old(labelCounter) + LabelsOfBlock(body)
      ensures scopeFunctionCounter == old(scopeFunctionCounter) && pendingScopeFunctions == old(pendingScopeFunctions)
      decreases body, 2
    {
      hide Then, Flatten, CodeBlock, LabelsOfBlock, CodeForPops, BlockCode, LabelsInBlock, RangesOfBlock;
      SameBlock(body, labelCounter, Inlined, InLoop(labels.onContinue, labels.end));
      Emit(Dup(1));
      Emit(Dup(1));
      Emit(Store);
      CompileInnerBlock(body, InLoop(labels.onContinue, labels.end));
      EmitForEnd(step, labels);
    }

    /** Add the step, test again; behind the loop its operands are popped. */
    method EmitForEnd(step: Option<Expr>, labels: RangeLabels)
      requires plan == ForEndCode(step, labels)
      modifies this`assembly, this`plan
      ensures plan == Done && Then(assembly, Done) == Then(old(assembly), old(plan))
    {
      hide Then, Flatten, CodeForPops;
      EmitLabel(labels.onContinue);
      Emit(Dup(3));
      Emit(Arith(ADD));
      Emit(Jmp(labels.start));
      EmitLabel(labels.end);
      EmitPops(step);
    }

    /** The loop test, in the direction of the step. */
    method EmitForTest(step: Option<Expr>, labels: RangeLabels, ghost rest: Asm)
      requires plan == ForTest(step, labels, rest)
      modifies this`assembly, this`plan
      ensures plan == rest && Then(assembly, plan) == Then(old(assembly), old(plan))
    {
      hide Then, Flatten;
      if step.Some? {
        Emit(Dup(6));
        Emit(Jez(labels.negativeStep));
      }
      Emit(Arith(CLE));
      Emit(Jnz(labels.end));
      if step.Some? {
        Emit(Jmp(labels.conditionJoin));
        EmitLabel(labels.negativeStep);
        Emit(Arith(CGE));
        Emit(Jnz(labels.end));
        EmitLabel(labels.conditionJoin);
      }
    }

    method EmitPops(step: Option<Expr>)
      requires plan == CodeForPops(step)
      modifies this`assembly, this`plan
      ensures plan == Done && Then(assembly, Done) == Then(old(assembly), old(plan))
    {
      hide Then, Flatten;
      var itemsOnStack := if step.Some? then 5 else 4;
      assert Pops(4) == Ins(Pop, Ins(Pop, Ins(Pop, Ins(Pop, Done))));
      for i := 0 to itemsOnStack
        invariant plan == Pops(itemsOnStack - i) && Then(assembly, plan) == Then(old(assembly), old(plan))
      {
        Emit(Pop);
      }
    }

    // ---------------------------------------------------------------- arrays

    /** compileArrayIndex: the array pointer on the stack becomes the address of the element. */
    method CompileArrayIndex(e: Expr)
      requires plan.Seq? && plan.first == CodeIndex(e, labelCounter)
      modifies this`assembly, this`plan, this`labelCounter
      ensures plan == old(plan).rest && Then(assembly, plan) == Then(old(assembly), old(plan))
      ensures labelCounter == old(labelCounter) + 2 + LabelsOf(e)
    {
      hide Then, Flatten, CodeExpr, LabelsOf;
      ghost var code, rest := plan.first, plan.rest;
      plan := code;
      var out := GenerateLabel(IndexOutOfRangeKind);
      var inside := GenerateLabel(IndexInRangeKind);
      Emit(Dup(0));
      Emit(Load(UI32));
      CompileExpr(e);
      EmitIndexCheck(TypeOf(e), out, inside);
      ThenDone(assembly);
      ThenSeq(old(assembly), assembly, code, rest);
      plan := rest;
    }

    method EmitIndexCheck(ty: Type, out: Label, inside: Label)
      requires plan == CheckIndex(out, inside, ty)
      modifies this`assembly, this`plan
      ensures plan == Done && assembly == Then(old(assembly), old(plan))
    {
      hide Then, Flatten, ConvIf;
      Emit(Dup(0));
      Emit(Push(AsmTy(ty), 0));
      Emit(Arith(CLT));
      Emit(Jnz(out));
      ConvertIfRequired(ty, TChar, CheckUpper(out, inside));
      Emit(Dup(1));
      Emit(Dup(1));
      Emit(Arith(CLE));
      Emit(Jnz(out));
      Emit(Jmp(inside));
      EmitLabel(out);
      Emit(Throw(ArrayIndexOutOfRange));
      EmitLabel(inside);
      EmitElementAddress();
      ThenDone(assembly);
    }

    method EmitElementAddress()
      requires plan == IndexAddress
      modifies this`assembly, this`plan
      ensures plan == Done && Then(assembly, plan) == Then(old(assembly), old(plan))
    {
      hide Then, Flatten;
      Emit(Swap);
      Emit(Pop);
      Emit(Push(UI32, ELEMENT));
      Emit(Arith(MUL));
      Emit(Push(UI32, 4));
      Emit(Arith(ADD));
      Emit(Arith(ADD));
    }

    /** The loop over the indices of an assignment target or a postfix expression. */
    method CompileIndices(es: seq<Expr>)
      requires es != [] && plan == CodeIndices(es, labelCounter)
      modifies this`assembly, this`plan, this`labelCounter
      ensures plan == Done && assembly == Then(old(assembly), old(plan))
      ensures labelCounter == old(labelCounter) + LabelsOfIndices(es)
    {
      hide Then, Flatten, CodeIndex, LabelsOf;
      for index := 0 to |es|
        invariant plan == CodeIndices(es[index..], labelCounter)
        invariant Then(assembly, plan) == Then(old(assembly), old(plan))
        invariant labelCounter + LabelsOfIndices(es[index..]) == old(labelCounter) + LabelsOfIndices(es)
      {
        assert es[index..][0] == es[index] && es[index..][1..] == es[index + 1..];
        if index < |es| - 1 {
          CompileArrayIndex(es[index]);
          Emit(Load(PTR));
        } else {
          assert es[index + 1..] == [];
          ThenOnly(assembly, plan);
          plan := Seq(plan, Done);
          CompileArrayIndex(es[index]);
        }
      }
      ThenDone(assembly);
    }

    /** compileArrayAlloc: one level, and below it a loop around the code of the next level. */
    method CompileArrayAlloc(levels: nat, depth: nat)
      requires plan.Seq? && plan.first == CodeAlloc(levels, depth, labelCounter)
      modifies this`assembly, this`plan, this`labelCounter
      ensures plan == old(plan).rest && Then(assembly, plan) == Then(old(assembly), old(plan))
      ensures labelCounter == old(labelCounter) + LabelsOfAlloc(levels)
      decreases levels
    {
      hide Then, Flatten, RowLoop;
      ghost var code, rest := plan.first, plan.rest;
      plan := code;
      EmitAllocHead(if levels <= 1 then Done else plan.rest.rest.rest.rest.rest.rest.rest.rest.rest);
      if levels > 1 {
        Emit(Dup(0));
        Emit(Load(UI32));
        var start := GenerateLabel(NestedStartKind);
        var end := GenerateLabel(NestedEndKind);
        EmitLabel(start);
        EmitRowLoop(levels, depth, start, end);
      }
      ThenDone(assembly);
      ThenSeq(old(assembly), assembly, code, rest);
      plan := rest;
    }

    method EmitAllocHead(ghost rest: Asm)
      requires plan == AllocHead(rest)
      modifies this`assembly, this`plan
      ensures plan == rest && Then(assembly, plan) == Then(old(assembly), old(plan))
    {
      hide Then, Flatten;
      Emit(Dup(0));
      Emit(Push(UI32, ELEMENT));
      Emit(Arith(MUL));
      Emit(Push(UI32, 4));
      Emit(Arith(ADD));
      Emit(Alloc);
      Emit(Dup(0));
      Emit(RotD(3));
      Emit(Store);
    }

    method EmitRowLoop(levels: nat, depth: nat, start: Label, end: Label)
      requires levels > 1 && labelCounter >= 2 && start == NestedStart(labelCounter - 2)
      requires end == NestedEnd(labelCounter - 2)
      requires plan == RowLoop(labelCounter - 2, depth, CodeAlloc(levels - 1, depth + 1, labelCounter))
      modifies this`assembly, this`plan, this`labelCounter
      ensures plan == Done && Then(assembly, plan) == Then(old(assembly), old(plan))
      ensures labelCounter == old(labelCounter) + LabelsOfAlloc(levels - 1)
      decreases levels, 0
    {
      hide Then, Flatten, CodeAlloc, LabelsOfAlloc, RowAddress, AfterRow;
      var n := labelCounter - 2;
      ghost var nested := CodeAlloc(levels - 1, depth + 1, labelCounter);
      Emit(Dup(0));
      Emit(Jez(end));
      EmitRowAddress(Ins(Dup(4 * (depth + 1) - 1), Seq(nested, AfterRow(n))));
      Emit(Dup(4 * (depth + 1) - 1));
      CompileArrayAlloc(levels - 1, depth + 1);
      EmitAfterRow(n, start, end);
    }

    method EmitRowAddress(ghost rest: Asm)
      requires plan == RowAddress(rest)
      modifies this`assembly, this`plan
      ensures plan == rest && Then(assembly, plan) == Then(old(assembly), old(plan))
    {
      hide Then, Flatten;
      Emit(Dup(1));
      Emit(Load(UI32));
      Emit(Dup(1));
      Emit(Arith(SUB));
      Emit(Push(UI32, ELEMENT));
      Emit(Arith(MUL));
      Emit(Push(UI32, 4));
      Emit(Arith(ADD));
      Emit(Dup(2));
      Emit(Arith(ADD));
    }

    method EmitAfterRow(n: nat, start: Label, end: Label)
      requires plan == AfterRow(n) && start == NestedStart(n) && end == NestedEnd(n)
      modifies this`assembly, this`plan
      ensures plan == Done && Then(assembly, plan) == Then(old(assembly), old(plan))
    {
      hide Then, Flatten;
      Emit(Store);
      Emit(Push(UI32, 1));
      Emit(Arith(SUB));
      Emit(Jmp(start));
      EmitLabel(end);
      Emit(Pop);
    }

    /** compileExprNew without an initialiser. */
    method CompileExprNew(es: seq<Expr>)
      requires es != [] && plan.Seq? && plan.first == CodeNew(es, labelCounter)
      modifies this`assembly, this`plan, this`labelCounter
      ensures plan == old(plan).rest && Then(assembly, plan) == Then(old(assembly), old(plan))
      ensures labelCounter == old(labelCounter) + LabelsOfLengths(es) + LabelsOfAlloc(|es|)
    {
      hide Then, Flatten, CodeLengths, CodeAlloc, LabelsOfAlloc, LabelsOfLengths;
      ghost var code, rest := plan.first, plan.rest;
      plan := code;
      CompileLengths(es);
      CompileArrayAlloc(|es|, 0);
      if |es| == 2 {
        Emit(Swap);
      } else if |es| > 2 {
        Emit(RotU(|es|));
      }
      for i := 0 to |es| - 1
        invariant plan == Pops(|es| - 1 - i) && Then(assembly, plan) == Then(old(assembly), code)
        invariant labelCounter == old(labelCounter) + LabelsOfLengths(es) + LabelsOfAlloc(|es|)
      {
        Emit(Pop);
      }
      ThenDone(assembly);
      ThenSeq(old(assembly), assembly, code, rest);
      plan := rest;
    }

    /** The lengths, from the last to the first. */
    method CompileLengths(es: seq<Expr>)
      requires plan.Seq? && plan.first == CodeLengths(es, labelCounter)
      modifies this`assembly, this`plan, this`labelCounter
      ensures plan == old(plan).rest && Then(assembly, plan) == Then(old(assembly), old(plan))
      ensures labelCounter == old(labelCounter) + LabelsOfLengths(es)
    {
      hide Then, Flatten, CodeExpr, LabelsOf, LengthCheck;
      ghost var code, rest := plan.first, plan.rest;
      plan := code;
      var index := |es|;
      assert es[..index] == es;
      while index > 0
        invariant 0 <= index <= |es|
        invariant plan == CodeLengths(es[..index], labelCounter) && Then(assembly, plan) == Then(old(assembly), code)
        invariant labelCounter + LabelsOfLengths(es[..index]) == old(labelCounter) + LabelsOfLengths(es)
      {
        index := index - 1;
        assert es[..index + 1][..index] == es[..index];
        var valid := GenerateLabel(LengthValidKind);
        CompileExpr(es[index]);
        EmitLengthCheck(TypeOf(es[index]), valid);
      }
      ThenDone(assembly);
      ThenSeq(old(assembly), assembly, code, rest);
      plan := rest;
    }

    method EmitLengthCheck(ty: Type, valid: Label)
      requires plan.Seq? && valid.CodeLabel? && valid == LengthValid(valid.id)
      requires plan.first == LengthCheck(valid.id, ty)
      modifies this`assembly, this`plan
      ensures plan == old(plan).rest && Then(assembly, plan) == Then(old(assembly), old(plan))
    {
      hide Then, Flatten, ConvIf;
      ghost var code, rest := plan.first, plan.rest;
      plan := code;
      Emit(Dup(0));
      Emit(Push(AsmTy(ty), 0));
      Emit(Arith(CLT));
      Emit(Jez(valid));
      Emit(Throw(NegativeArrayLength));
      EmitLabel(valid);
      ConvertIfRequired(ty, TChar, Done);
      ThenDone(assembly);
      ThenSeq(old(assembly), assembly, code, rest);
      plan := rest;
    }
  }

  /** The loop proper, when the body is compiled with the counter at m. */
  function ForLoopCode(step: Option<Expr>, body: seq<Stm>, n: nat, m: nat): Asm {
    Def(ForStart(n, step), CodeForLoop(n, step, CodeBlock(body, m, InLoop(ForContinue(n, step), ForEnd(n, step)))))
  }

  function ForTest(step: Option<Expr>, labels: RangeLabels, rest: Asm): Asm {
    if step.None? then Ins(Arith(CLE), Ins(Jnz(labels.end), rest))
    else
      Ins(Dup(6), Ins(Jez(labels.negativeStep), Ins(Arith(CLE), Ins(Jnz(labels.end), Ins(Jmp(labels.conditionJoin),
        Def(labels.negativeStep, Ins(Arith(CGE), Ins(Jnz(labels.end), Def(labels.conditionJoin, rest)))))))))
  }

  function ForEndCode(step: Option<Expr>, labels: RangeLabels): Asm {
    Def(labels.onContinue, Ins(Dup(3), Ins(Arith(ADD), Ins(Jmp(labels.start), Def(labels.end, CodeForPops(step))))))
  }

  /** What follows the conversion of a written step. */
  function AfterStep(t: Type, labels: RangeLabels, rest: Asm): Asm {
    Ins(Dup(0), Ins(Jnz(labels.stepValid), Ins(Throw(ZeroRangeStep), Def(labels.stepValid,
      Ins(Dup(0), Ins(Push(AsmTy(t), 0), Ins(Arith(CGE), Ins(Swap, rest))))))))
  }
}
