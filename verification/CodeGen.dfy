/** The code AssemblyGenerator emits, as functions from source to assembly.

    Assembly is a list whose elements may be whole sub-programs (`Seq`), so the code of a construct
    has the shape of the construct; `Flatten` gives the flat item list the generator appends to.
    `n` is always the value of the label counter when a construct is compiled, and
    `LabelsOf...` is how far the construct moves it. */
module CodeGen {
  import opened Words
  import opened Isa
  import opened Source

  datatype Asm =
    | Done
    | Ins(i: Instr<Label>, rest: Asm)
    | Def(l: Label, rest: Asm)
    | Seq(first: Asm, rest: Asm)

  datatype Item = Instruction(i: Instr<Label>) | LabelDef(l: Label) | MethodDef(l: Label, args: Byte, locals: int)

  function Flatten(a: Asm): seq<Item> {
    match a
    case Done => []
    case Ins(i, rest) => [Instruction(i)] + Flatten(rest)
    case Def(l, rest) => [LabelDef(l)] + Flatten(rest)
    case Seq(first, rest) => Flatten(first) + Flatten(rest)
  }

  /** Bytes of code. */
  function Length(a: Asm): nat {
    match a
    case Done => 0
    case Ins(i, rest) => Size(i) + Length(rest)
    case Def(_, rest) => Length(rest)
    case Seq(first, rest) => Length(first) + Length(rest)
  }

  /** toAssemblyType on scalars. */
  function AsmTy(t: Type): Ty {
    if t == TInt then I32 else UI32
  }

  /** compileTypeConversionIfRequired. */
  function ConvIf(from: Type, to: Type, rest: Asm): Asm {
    if AsmTy(from) == AsmTy(to) then rest else Ins(Conv(AsmTy(to)), rest)
  }

  function Operator(op: BinOp): ArithOp {
    match op
    case Plus => ADD
    case Minus => SUB
    case Times => MUL
    case IntDivide => DIV
    case Modulo => MOD
    case BitOr => ORR
    case BitXor => XOR
    case BitAnd => AND
    case LeftShift => SHL
    case ArithShift => SAR
    case LogicShift => SHR
    case Equal => CEQ
    case NotEqual => CNE
    case Less => CLT
    case LessEqual => CLE
    case Greater => CGT
    case _ => CGE
  }

  // ---------------------------------------------------------------- expressions

  function LabelsOf(e: Expr): nat
    decreases e, 0
  {
    match e
    case Unary(op, x) => LabelsOf(x) + if op == LogicNot then 2 else 0
    case Binary(op, l, r) => LabelsOf(l) + LabelsOfRight(op, r)
    case Ternary(c, t, f) => 2 + LabelsOf(c) + LabelsOf(f) + LabelsOf(t)
    case Cast(_, x) => LabelsOf(x)
    case _ => 0
  }

  function LabelsOfRight(op: BinOp, r: Expr): nat
    decreases r, 1
  {
    (if IsLogic(op) then 2 else 0) + LabelsOf(r)
  }

  function CodeExpr(e: Expr, n: nat): Asm
    decreases e, 0
  {
    match e
    case IntLit(v) => Ins(Push(I32, v), Done)
    case BoolLit(b) => Ins(Push(UI32, Flag(b)), Done)
    case CharLit(c) => Ins(Push(UI32, c), Done)
    case Local(slot, t) => Ins(LoadL(AsmTy(t), slot), Done)
    case Unary(op, x) =>
      UnaryTemplate(op, TypeOf(x), n, CodeExpr(x, if op == LogicNot then n + 2 else n))
    case IncDec(prefix, up, slot, t) => IncDecTemplate(prefix, up, slot, t)
    case Binary(op, l, r) => Seq(CodeExpr(l, n), CodeRight(op, TypeOf(l), r, n + LabelsOf(l)))
    case Ternary(c, t, f) =>
      var nf := n + 2 + LabelsOf(c);
      TernaryTemplate(n, TypeOf(t), TypeOf(f), CodeExpr(c, n + 2), CodeExpr(t, nf + LabelsOf(f)), CodeExpr(f, nf))
    case Cast(t, x) => Seq(CodeExpr(x, n), ConvIf(TypeOf(x), t, Done))
  }

  /** compileExprBinaryWithLeftExprOnStack: the left operand is already on the stack. */
  function CodeRight(op: BinOp, left: Type, r: Expr, n: nat): Asm
    decreases r, 1
  {
    RightTemplate(op, left, TypeOf(r), n, CodeExpr(r, if IsLogic(op) then n + 2 else n))
  }

  function UnaryTemplate(op: UnOp, t: Type, n: nat, code: Asm): Asm {
    match op
    case UPlus => code
    case UMinus => Ins(Push(AsmTy(t), 0), Seq(code, Ins(Arith(SUB), Done)))
    case BitwiseNot => Seq(code, ConvIf(t, TInt, Ins(Not, Done)))
    case LogicNot =>
      var isTrue, end := CodeLabel(LogicalNotTrueKind, n), CodeLabel(LogicalNotEndKind, n + 1);
      Seq(code, Ins(Jez(isTrue), Ins(Push(UI32, 0), Ins(Jmp(end), Def(isTrue, Ins(Push(UI32, 1), Def(end, Done)))))))
  }

  function IncDecTemplate(prefix: bool, up: bool, slot: int, t: Type): Asm {
    var op := Arith(if up then ADD else SUB);
    Ins(AddrL(slot), Ins(Dup(0), Ins(Load(AsmTy(t)),
      if prefix then Ins(Push(AsmTy(t), 1), Ins(op, Ins(Dup(0), Ins(RotU(3), Ins(Store, Done)))))
      else Ins(Swap, Ins(Dup(1), Ins(Push(AsmTy(t), 1), Ins(op, Ins(Store, Done))))))))
  }

  function RightTemplate(op: BinOp, left: Type, right: Type, n: nat, code: Asm): Asm {
    if op == LogicOr then
      LogicTemplate(true, CodeLabel(LogicalOrTrueKind, n), CodeLabel(LogicalOrEndKind, n + 1), code)
    else if op == LogicAnd then
      LogicTemplate(false, CodeLabel(LogicalAndFalseKind, n), CodeLabel(LogicalAndEndKind, n + 1), code)
    else ConvIf(left, TInt, Seq(code, ConvIf(right, TInt, Ins(Arith(Operator(op)), Done))))
  }

  /** || when `decisive` is true, && when it is false: either operand equal to `decisive` decides. */
  function LogicTemplate(decisive: bool, decided: Label, end: Label, code: Asm): Asm {
    Ins(Branch(decisive, decided), Seq(code, Ins(Branch(decisive, decided),
      Ins(Push(UI32, Flag(!decisive)), Ins(Jmp(end), Def(decided, Ins(Push(UI32, Flag(decisive)), Def(end, Done))))))))
  }

  function Branch(onTrue: bool, l: Label): Instr<Label> {
    if onTrue then Jnz(l) else Jez(l)
  }

  /** The false branch comes first. */
  function TernaryTemplate(n: nat, t: Type, f: Type, cond: Asm, thn: Asm, els: Asm): Asm {
    var isTrue, end := CodeLabel(TernaryTrueKind, n), CodeLabel(TernaryEndKind, n + 1);
    var result := TernaryType(t, f);
    Seq(cond, Ins(Jnz(isTrue), Seq(els, ConvIf(f, result, Ins(Jmp(end),
      Def(isTrue, Seq(thn, ConvIf(t, result, Def(end, Done)))))))))
  }

  // ---------------------------------------------------------------- statements

  datatype Loop = NoLoop | InLoop(onContinue: Label, onBreak: Label)

  function LabelsOfStm(s: Stm): nat {
    match s
    case VarDecl(_, _, init) => if init.Some? then LabelsOf(init.value) else 0
    case Assign(_, _, e) => LabelsOf(e)
    case OpAssign(_, _, op, e) => LabelsOfRight(op, e)
    case Block(ss) => LabelsOfBlock(ss)
    case If(c, thn, els) =>
      LabelsOf(c) + 1 + LabelsOfBlock(thn) + if els.Some? then 1 + LabelsOfStm(els.value) else 0
    case While(c, ss) => 2 + LabelsOf(c) + LabelsOfBlock(ss)
    case For(_, _, a, b, step, ss) => ForLabels(step) + LabelsOfStep(step) + LabelsOf(b) + LabelsOf(a)
      + LabelsOfBlock(ss)
    case Return(e, _) => if e.Some? then LabelsOf(e.value) else 0
    case _ => 0
  }

  function ForLabels(step: Option<Expr>): nat {
    if step.Some? then 6 else 3
  }

  function LabelsOfStep(step: Option<Expr>): nat {
    if step.Some? then LabelsOf(step.value) else 0
  }

  function LabelsOfBlock(ss: seq<Stm>): nat {
    if ss == [] then 0 else LabelsOfStm(ss[0]) + LabelsOfBlock(ss[1..])
  }

  function CodeStm(s: Stm, n: nat, loop: Loop): Asm
    decreases s, 1
  {
    match s
    case VarDecl(slot, t, init) =>
      if init.None? then Done else AssignTemplate(slot, TypeOf(init.value), t, CodeExpr(init.value, n))
    case Assign(slot, t, e) => AssignTemplate(slot, TypeOf(e), t, CodeExpr(e, n))
    case OpAssign(slot, t, op, e) => OpAssignTemplate(slot, t, op, CodeRight(op, t, e, n))
    case Bump(up, slot, t) => BumpTemplate(up, slot, t)
    case Block(ss) => CodeBlock(ss, n, loop)
    case If(c, thn, els) =>
      var m := n + LabelsOf(c);
      if els.None? then IfTemplate(m, CodeExpr(c, n), CodeBlock(thn, m + 1, loop))
      else
        IfElseTemplate(m, CodeExpr(c, n), CodeBlock(thn, m + 2, loop),
                       CodeStm(els.value, m + 2 + LabelsOfBlock(thn), loop))
    case While(c, ss) =>
      WhileTemplate(n, CodeExpr(c, n + 2), CodeBlock(ss, n + 2 + LabelsOf(c), InLoop(WhileStart(n), WhileEnd(n))))
    case For(slot, t, a, b, step, ss) =>
      var nb := n + ForLabels(step) + LabelsOfStep(step);
      var body := CodeBlock(ss, nb + LabelsOf(b) + LabelsOf(a), InLoop(ForContinue(n, step), ForEnd(n, step)));
      ForTemplate(slot, t, a, b, step, n, nb, body)
    case Break => if loop.InLoop? then Ins(Jmp(loop.onBreak), Done) else Done
    case Continue => if loop.InLoop? then Ins(Jmp(loop.onContinue), Done) else Done
    case Return(e, t) =>
      if e.None? then Ins(Ret, Done) else Seq(CodeExpr(e.value, n), ConvIf(TypeOf(e.value), t, Ins(Ret, Done)))
  }

  function CodeBlock(ss: seq<Stm>, n: nat, loop: Loop): Asm
    decreases ss, 0
  {
    if ss == [] then Done
    else Seq(CodeStm(ss[0], n, loop), CodeBlock(ss[1..], n + LabelsOfStm(ss[0]), loop))
  }

  function AssignTemplate(slot: int, from: Type, to: Type, code: Asm): Asm {
    Seq(code, ConvIf(from, to, Ins(StoreL(slot), Done)))
  }

  function OpAssignTemplate(slot: int, t: Type, op: BinOp, code: Asm): Asm {
    Ins(AddrL(slot), Ins(Dup(0), Ins(Load(AsmTy(t)),
      Seq(code, ConvIf(if IsLogic(op) then TBool else TInt, t, Ins(Store, Done))))))
  }

  function BumpTemplate(up: bool, slot: int, t: Type): Asm {
    Ins(AddrL(slot), Ins(Dup(0), Ins(Load(AsmTy(t)), Ins(Push(AsmTy(t), 1),
      Ins(Arith(if up then ADD else SUB), Ins(Store, Done))))))
  }

  function IfTemplate(m: nat, cond: Asm, thn: Asm): Asm {
    Seq(cond, Ins(Jez(CodeLabel(IfEndKind, m)), Seq(thn, Def(CodeLabel(IfEndKind, m), Done))))
  }

  function IfElseTemplate(m: nat, cond: Asm, thn: Asm, els: Asm): Asm {
    var end, other := CodeLabel(IfEndKind, m), CodeLabel(IfElseKind, m + 1);
    Seq(cond, Ins(Jez(other), Seq(thn, Ins(Jmp(end), Def(other, Seq(els, Def(end, Done)))))))
  }

  function WhileStart(n: nat): Label {
    CodeLabel(WhileStartKind, n)
  }

  function WhileEnd(n: nat): Label {
    CodeLabel(WhileEndKind, n + 1)
  }

  function WhileTemplate(n: nat, cond: Asm, body: Asm): Asm {
    Def(WhileStart(n), Seq(cond, Ins(Jez(WhileEnd(n)), Seq(body, Ins(Jmp(WhileStart(n)), Def(WhileEnd(n), Done))))))
  }

  function ForTemplate(slot: int, t: Type, a: Expr, b: Expr, step: Option<Expr>, n: nat, nb: nat, body: Asm): Asm {
    CodeForStep(t, step, n, CodeForBounds(slot, t, a, b, nb, Def(ForStart(n, step), CodeForLoop(n, step, body))))
  }

  // Labels of a range loop, in the order compileStmFor draws them.

  function StepValid(n: nat): Label {
    CodeLabel(ForStepValidKind, n)
  }

  function ForStart(n: nat, step: Option<Expr>): Label {
    CodeLabel(ForStartKind, if step.Some? then n + 1 else n)
  }

  function NegativeStep(n: nat): Label {
    CodeLabel(ForNegativeStepConditionKind, n + 2)
  }

  function ConditionJoin(n: nat): Label {
    CodeLabel(ForConditionJoinKind, n + 3)
  }

  function ForContinue(n: nat, step: Option<Expr>): Label {
    CodeLabel(ForContinueKind, if step.Some? then n + 4 else n + 1)
  }

  function ForEnd(n: nat, step: Option<Expr>): Label {
    CodeLabel(ForEndKind, if step.Some? then n + 5 else n + 2)
  }

  /** The step: leaves [is_positive, step], or just [1] when no step is written. */
  function CodeForStep(t: Type, step: Option<Expr>, n: nat, rest: Asm): Asm {
    if step.None? then Ins(Push(AsmTy(t), 1), rest)
    else
      Seq(CodeExpr(step.value, n + 6), ConvIf(TypeOf(step.value), t,
        Ins(Dup(0), Ins(Jnz(StepValid(n)), Ins(Throw(ZeroRangeStep), Def(StepValid(n),
          Ins(Dup(0), Ins(Push(AsmTy(t), 0), Ins(Arith(CGE), Ins(Swap, rest))))))))))
  }

  /** Pushes the range end, the address of the loop variable and the range start. */
  function CodeForBounds(slot: int, t: Type, a: Expr, b: Expr, n: nat, rest: Asm): Asm {
    Seq(CodeExpr(b, n), ConvIf(TypeOf(b), t, Ins(AddrL(slot),
      Seq(CodeExpr(a, n + LabelsOf(b)), ConvIf(TypeOf(a), t, rest)))))
  }

  /** From the loop's start label on, with [.., step, end, &variable, current] on the stack. */
  function CodeForLoop(n: nat, step: Option<Expr>, body: Asm): Asm {
    Ins(Dup(2), Ins(Dup(1),
      if step.None? then Ins(Arith(CLE), Ins(Jnz(ForEnd(n, step)), CodeForBody(n, step, body)))
      else
        Ins(Dup(6), Ins(Jez(NegativeStep(n)), Ins(Arith(CLE), Ins(Jnz(ForEnd(n, step)), Ins(Jmp(ConditionJoin(n)),
          Def(NegativeStep(n), Ins(Arith(CGE), Ins(Jnz(ForEnd(n, step)),
            Def(ConditionJoin(n), CodeForBody(n, step, body))))))))))))
  }

  function CodeForBody(n: nat, step: Option<Expr>, body: Asm): Asm {
    Ins(Dup(1), Ins(Dup(1), Ins(Store, Seq(body, Def(ForContinue(n, step),
      Ins(Dup(3), Ins(Arith(ADD), Ins(Jmp(ForStart(n, step)), Def(ForEnd(n, step), CodeForPops(step))))))))))
  }

  function CodeForPops(step: Option<Expr>): Asm {
    var four := Ins(Pop, Ins(Pop, Ins(Pop, Ins(Pop, Done))));
    if step.Some? then Ins(Pop, four) else four
  }

  // ---------------------------------------------------------------- programs

  /** A top-level block or loop and the number of local slots its scope needs. */
  datatype ScopeMethod = ScopeMethod(body: Stm, locals: nat)

  /** The global code from method i of n on. */
  function GlobalCode(i: nat, n: nat): Asm
    decreases n - i
  {
    if i >= n then Ins(Halt, Done) else Ins(Call(MethodLabel(Scope(i))), GlobalCode(i + 1, n))
  }

  /** compileFunctionDeclaration for a scope method, behind its header. */
  function MethodCode(m: ScopeMethod, n: nat): Asm {
    Seq(CodeStm(m.body, n, NoLoop), Ins(Ret, Done))
  }

  /** The code of a user function without range loops, behind its header: only void functions get a return at the
      end. */
  function FunctionCode(ss: seq<Stm>, isVoid: bool, k: nat): Asm {
    if isVoid then Seq(CodeBlock(ss, k, NoLoop), Ins(Ret, Done)) else CodeBlock(ss, k, NoLoop)
  }

  /** The label counter when method i is compiled. */
  function CounterAt(ms: seq<ScopeMethod>, i: nat): nat
    requires i <= |ms|
  {
    if i == 0 then 0 else CounterAt(ms, i - 1) + LabelsOfStm(ms[i - 1].body)
  }

  /** A scope method behind the ones before it: header, body and the default return. */
  function MethodItems(ms: seq<ScopeMethod>, i: nat): seq<Item>
    requires i < |ms|
  {
    [MethodDef(MethodLabel(Scope(i)), 0, ms[i].locals)] + Flatten(MethodCode(ms[i], CounterAt(ms, i)))
  }

  /** compileProgram: global code, then the pending scope methods in order. */
  function ItemsUpTo(ms: seq<ScopeMethod>, i: nat): seq<Item>
    requires i <= |ms|
  {
    if i == 0 then Flatten(GlobalCode(0, |ms|)) else ItemsUpTo(ms, i - 1) + MethodItems(ms, i - 1)
  }

  // ---------------------------------------------------------------- user functions

  /** What compileStmFor does with a range loop: emit its code while scope functions are being compiled, and
      otherwise register it as the scope function of the next number and emit a call of that. */
  datatype RangeMode = Inlined | Registered(next: nat)

  /** The loops a statement registers, as scope functions. Their frames are only measured when they are compiled. */
  function RangesOf(s: Stm): seq<ScopeMethod> {
    match s
    case Block(ss) => RangesOfBlock(ss)
    case If(_, thn, els) => RangesOfBlock(thn) + if els.Some? then RangesOf(els.value) else []
    case While(_, ss) => RangesOfBlock(ss)
    case For(_, _, _, _, _, _) => [ScopeMethod(s, 0)]
    case _ => []
  }

  function RangesOfBlock(ss: seq<Stm>): seq<ScopeMethod> {
    if ss == [] then [] else RangesOf(ss[0]) + RangesOfBlock(ss[1..])
  }

  /** How often a statement moves the label counter when its range loops are inlined or registered. */
  function LabelsIn(s: Stm, inlined: bool): nat {
    match s
    case Block(ss) => LabelsInBlock(ss, inlined)
    case If(c, thn, els) =>
      LabelsOf(c) + 1 + LabelsInBlock(thn, inlined) + if els.Some? then 1 + LabelsIn(els.value, inlined) else 0
    case While(c, ss) => 2 + LabelsOf(c) + LabelsInBlock(ss, inlined)
    case For(_, _, _, _, _, _) => if inlined then LabelsOfStm(s) else 0
    case _ => LabelsOfStm(s)
  }

  function LabelsInBlock(ss: seq<Stm>, inlined: bool): nat {
    if ss == [] then 0 else LabelsIn(ss[0], inlined) + LabelsInBlock(ss[1..], inlined)
  }

  /** The mode for what follows when so many loops have been registered. */
  function Later(mode: RangeMode, loops: nat): RangeMode {
    if mode.Registered? then Registered(mode.next + loops) else mode
  }

  /** The code of a statement in a mode; inlined it is CodeStm. */
  function StmCode(s: Stm, n: nat, mode: RangeMode, loop: Loop): Asm
    decreases s, 1
  {
    match s
    case Block(ss) => BlockCode(ss, n, mode, loop)
    case If(c, thn, els) =>
      var m := n + LabelsOf(c);
      if els.None? then IfTemplate(m, CodeExpr(c, n), BlockCode(thn, m + 1, mode, loop))
      else
        IfElseTemplate(m, CodeExpr(c, n), BlockCode(thn, m + 2, mode, loop),
          StmCode(els.value, m + 2 + LabelsInBlock(thn, mode.Inlined?), Later(mode, |RangesOfBlock(thn)|), loop))
    case While(c, ss) =>
      WhileTemplate(n, CodeExpr(c, n + 2),
        BlockCode(ss, n + 2 + LabelsOf(c), mode, InLoop(WhileStart(n), WhileEnd(n))))
    case For(_, _, _, _, _, _) =>
      if mode.Registered? then Ins(Call(MethodLabel(Scope(mode.next))), Done) else CodeStm(s, n, loop)
    case _ => CodeStm(s, n, loop)
  }

  function BlockCode(ss: seq<Stm>, n: nat, mode: RangeMode, loop: Loop): Asm
    decreases ss, 0
  {
    if ss == [] then Done
    else
      Seq(StmCode(ss[0], n, mode, loop),
        BlockCode(ss[1..], n + LabelsIn(ss[0], mode.Inlined?), Later(mode, |RangesOf(ss[0])|), loop))
  }

  /** A user function as the analyser leaves it. */
  datatype FunctionDecl = FunctionDecl(name: string, args: Byte, locals: nat, isVoid: bool, body: seq<Stm>)

  /** compileFunctionDeclaration for a user function, behind its header, when `next` scope functions are numbered. */
  function DeclCode(f: FunctionDecl, n: nat, next: nat): Asm {
    var body := BlockCode(f.body, n, Registered(next), NoLoop);
    if f.isVoid then Seq(body, Ins(Ret, Done)) else body
  }

  function DeclItems(f: FunctionDecl, n: nat, next: nat): seq<Item> {
    [MethodDef(MethodLabel(Function(f.name)), f.args, f.locals)] + Flatten(DeclCode(f, n, next))
  }

  /** The label counter and the number of the next scope function behind the first i functions. */
  function LabelsBefore(fs: seq<FunctionDecl>, i: nat): nat
    requires i <= |fs|
  {
    if i == 0 then 0 else LabelsBefore(fs, i - 1) + LabelsInBlock(fs[i - 1].body, false)
  }

  function RangesBefore(fs: seq<FunctionDecl>, i: nat): nat
    requires i <= |fs|
  {
    if i == 0 then 0 else RangesBefore(fs, i - 1) + |RangesOfBlock(fs[i - 1].body)|
  }

  /** compileProgram: global code, the scope functions of the top-level statements, then i of the user functions. */
  function ProgramItems(ms: seq<ScopeMethod>, fs: seq<FunctionDecl>, i: nat): seq<Item>
    requires i <= |fs|
  {
    if i == 0 then ItemsUpTo(ms, |ms|)
    else
      ProgramItems(ms, fs, i - 1)
        + DeclItems(fs[i - 1], CounterAt(ms, |ms|) + LabelsBefore(fs, i - 1), |ms| + RangesBefore(fs, i - 1))
  }

  /** Without range loops, or while they are inlined, the mode makes no difference. */
  lemma {:induction false} SameCode(s: Stm, n: nat, mode: RangeMode, loop: Loop)
    requires mode.Inlined? || RangesOf(s) == []
    ensures StmCode(s, n, mode, loop) == CodeStm(s, n, loop) && LabelsIn(s, mode.Inlined?) == LabelsOfStm(s)
    decreases s, 1
  {
    hide IfTemplate, IfElseTemplate, WhileTemplate, ForTemplate, AssignTemplate, OpAssignTemplate, BumpTemplate,
      CodeExpr, LabelsOf;
    match s
    case Block(ss) => SameBlock(ss, n, mode, loop);
    case If(_, _, _) => SameIf(s, n, mode, loop);
    case While(c, ss) => SameBlock(ss, n + 2 + LabelsOf(c), mode, InLoop(WhileStart(n), WhileEnd(n)));
    case _ =>
  }

  lemma {:induction false} SameIf(s: Stm, n: nat, mode: RangeMode, loop: Loop)
    requires s.If? && (mode.Inlined? || RangesOf(s) == [])
    ensures StmCode(s, n, mode, loop) == CodeStm(s, n, loop) && LabelsIn(s, mode.Inlined?) == LabelsOfStm(s)
    decreases s, 0
  {
    hide IfTemplate, IfElseTemplate, CodeExpr, LabelsOf, CodeBlock, BlockCode, LabelsInBlock, LabelsOfBlock,
      RangesOfBlock;
    var m := n + LabelsOf(s.cond);
    if s.els.None? {
      SameBlock(s.thn, m + 1, mode, loop);
    } else {
      SameBlock(s.thn, m + 2, mode, loop);
      SameCode(s.els.value, m + 2 + LabelsOfBlock(s.thn), Later(mode, |RangesOfBlock(s.thn)|), loop);
    }
  }

  lemma {:induction false} SameBlock(ss: seq<Stm>, n: nat, mode: RangeMode, loop: Loop)
    requires mode.Inlined? || RangesOfBlock(ss) == []
    ensures BlockCode(ss, n, mode, loop) == CodeBlock(ss, n, loop)
    ensures LabelsInBlock(ss, mode.Inlined?) == LabelsOfBlock(ss)
    decreases ss, 0
  {
    hide CodeStm, StmCode, LabelsIn, LabelsOfStm;
    if ss != [] {
      SameCode(ss[0], n, mode, loop);
      SameBlock(ss[1..], n + LabelsOfStm(ss[0]), Later(mode, |RangesOf(ss[0])|), loop);
    }
  }
}
