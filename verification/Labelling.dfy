/** Labels of generated code: every label is defined once, with a number the construct owns, and every
    jump goes to a label of the same code or to the two labels of the enclosing loop. */
module Labelling {
  import opened Isa
  import opened Source
  import opened CodeGen

  function DefSet(a: Asm): set<Label> {
    match a
    case Done => {}
    case Ins(_, rest) => DefSet(rest)
    case Def(l, rest) => {l} + DefSet(rest)
    case Seq(first, rest) => DefSet(first) + DefSet(rest)
  }

  function RefsOf(i: Instr<Label>): set<Label> {
    if i.PushLabel? || i.LoadG? || i.StoreG? || i.Call? || i.Jmp? || i.Jez? || i.Jnz? then {i.target} else {}
  }

  function RefSet(a: Asm): set<Label> {
    match a
    case Done => {}
    case Ins(i, rest) => RefsOf(i) + RefSet(rest)
    case Def(_, rest) => RefSet(rest)
    case Seq(first, rest) => RefSet(first) + RefSet(rest)
  }

  ghost predicate Distinct(a: Asm) {
    match a
    case Done => true
    case Ins(_, rest) => Distinct(rest)
    case Def(l, rest) => l !in DefSet(rest) && Distinct(rest)
    case Seq(first, rest) => Distinct(first) && Distinct(rest) && DefSet(first) !! DefSet(rest)
  }

  predicate AllEncodable(a: Asm) {
    match a
    case Done => true
    case Ins(i, rest) => Encodable(i) && AllEncodable(rest)
    case Def(_, rest) => AllEncodable(rest)
    case Seq(first, rest) => AllEncodable(first) && AllEncodable(rest)
  }

  ghost predicate Within(labels: set<Label>, lo: nat, hi: nat) {
    forall l | l in labels :: l.CodeLabel? && lo <= l.id < hi
  }

  /** Defines only labels numbered in [lo, hi), none twice, refers only to those and to `outer`, and has
      acceptable immediates. */
  ghost predicate Tidy(a: Asm, lo: nat, hi: nat, outer: set<Label>) {
    Distinct(a) && Within(DefSet(a), lo, hi) && RefSet(a) <= DefSet(a) + outer && AllEncodable(a)
  }

  function LoopLabels(loop: Loop): set<Label> {
    if loop.InLoop? then {loop.onContinue, loop.onBreak} else {}
  }

  /** One level of the definitions above, for code of any depth. */
  lemma {:induction false} Unfolding()
    ensures DefSet(Done) == {} && RefSet(Done) == {} && Distinct(Done) && AllEncodable(Done)
    ensures forall i, rest {:trigger DefSet(Ins(i, rest))} :: DefSet(Ins(i, rest)) == DefSet(rest)
    ensures forall i, rest {:trigger RefSet(Ins(i, rest))} :: RefSet(Ins(i, rest)) == RefsOf(i) + RefSet(rest)
    ensures forall i, rest {:trigger Distinct(Ins(i, rest))} :: Distinct(Ins(i, rest)) == Distinct(rest)
    ensures forall l, rest {:trigger DefSet(Def(l, rest))} :: DefSet(Def(l, rest)) == {l} + DefSet(rest)
    ensures forall l, rest {:trigger RefSet(Def(l, rest))} :: RefSet(Def(l, rest)) == RefSet(rest)
    ensures forall l, rest {:trigger Distinct(Def(l, rest))} ::
      Distinct(Def(l, rest)) <==> l !in DefSet(rest) && Distinct(rest)
    ensures forall a, rest {:trigger DefSet(Seq(a, rest))} :: DefSet(Seq(a, rest)) == DefSet(a) + DefSet(rest)
    ensures forall a, rest {:trigger RefSet(Seq(a, rest))} :: RefSet(Seq(a, rest)) == RefSet(a) + RefSet(rest)
    ensures forall a, rest {:trigger Distinct(Seq(a, rest))} ::
      Distinct(Seq(a, rest)) <==> Distinct(a) && Distinct(rest) && DefSet(a) !! DefSet(rest)
    ensures forall from, to, rest {:trigger DefSet(ConvIf(from, to, rest))} ::
      DefSet(ConvIf(from, to, rest)) == DefSet(rest)
    ensures forall from, to, rest {:trigger RefSet(ConvIf(from, to, rest))} ::
      RefSet(ConvIf(from, to, rest)) == RefSet(rest)
    ensures forall from, to, rest {:trigger Distinct(ConvIf(from, to, rest))} ::
      Distinct(ConvIf(from, to, rest)) == Distinct(rest)
    ensures forall i, rest {:trigger AllEncodable(Ins(i, rest))} ::
      AllEncodable(Ins(i, rest)) <==> Encodable(i) && AllEncodable(rest)
    ensures forall l, rest {:trigger AllEncodable(Def(l, rest))} :: AllEncodable(Def(l, rest)) == AllEncodable(rest)
    ensures forall a, rest {:trigger AllEncodable(Seq(a, rest))} ::
      AllEncodable(Seq(a, rest)) <==> AllEncodable(a) && AllEncodable(rest)
    ensures forall from, to, rest {:trigger AllEncodable(ConvIf(from, to, rest))} ::
      AllEncodable(ConvIf(from, to, rest)) == AllEncodable(rest)
  {
    hide Width, AsmTy;
  }

  // ---------------------------------------------------------------- expressions

  lemma {:induction false} TidyExpr(e: Expr, n: nat)
    ensures Tidy(CodeExpr(e, n), n, n + LabelsOf(e), {})
    decreases e, 1
  {
    hide Within, AllEncodable, DefSet, RefSet, Distinct, Tidy, UnaryTemplate, TernaryTemplate, RightTemplate,
      IncDecTemplate, ConvIf, TypeOf, LabelsOfRight, CodeRight;
    match e
    case Unary(op, x) =>
      TidyExpr(x, if op == LogicNot then n + 2 else n);
      if op == LogicNot {
        TidyNot(n, TypeOf(x), CodeExpr(x, n + 2), n + 2 + LabelsOf(x));
      } else {
        TidyUnary(op, n, TypeOf(x), CodeExpr(x, n), n + LabelsOf(x));
      }
    case IncDec(prefix, up, slot, t) => TidyIncDec(prefix, up, slot, t, n);
    case Binary(op, l, r) =>
      var m := n + LabelsOf(l);
      TidyExpr(l, n);
      TidyRight(op, TypeOf(l), r, m);
      TidySeq(CodeExpr(l, n), CodeRight(op, TypeOf(l), r, m), n, m, m + LabelsOfRight(op, r));
    case Ternary(c, t, f) =>
      var nf := n + 2 + LabelsOf(c);
      TidyExpr(c, n + 2);
      TidyExpr(f, nf);
      TidyExpr(t, nf + LabelsOf(f));
      TidyTernary(n, TypeOf(t), TypeOf(f), CodeExpr(c, n + 2), CodeExpr(t, nf + LabelsOf(f)), CodeExpr(f, nf),
                  nf, nf + LabelsOf(f), nf + LabelsOf(f) + LabelsOf(t));
    case Cast(t, x) =>
      TidyExpr(x, n);
      TidyConverted(TypeOf(x), t, CodeExpr(x, n), n, n + LabelsOf(x));
    case _ => TidyLeaf(e, n);
  }

  lemma {:induction false} TidyRight(op: BinOp, left: Type, r: Expr, n: nat)
    ensures Tidy(CodeRight(op, left, r, n), n, n + LabelsOfRight(op, r), {})
    decreases r, 2
  {
    if IsLogic(op) {
      TidyExpr(r, n + 2);
      if op == LogicOr {
        TidyLogic(true, CodeLabel(LogicalOrTrueKind, n), CodeLabel(LogicalOrEndKind, n + 1), CodeExpr(r, n + 2), n,
          n + 2 + LabelsOf(r));
      } else {
        TidyLogic(false, CodeLabel(LogicalAndFalseKind, n), CodeLabel(LogicalAndEndKind, n + 1), CodeExpr(r, n + 2), n,
          n + 2 + LabelsOf(r));
      }
    } else {
      TidyExpr(r, n);
      TidyArith(op, left, TypeOf(r), CodeExpr(r, n), n, n + LabelsOf(r));
    }
  }

  lemma {:induction false} TidyLeaf(e: Expr, n: nat)
    requires e.IntLit? || e.BoolLit? || e.CharLit? || e.Local?
    ensures Tidy(CodeExpr(e, n), n, n, {})
  {
    hide AllEncodable, DefSet, RefSet, Distinct;
    Unfolding();
  }

  lemma {:induction false} TidySeq(a: Asm, b: Asm, lo: nat, mid: nat, hi: nat)
    requires lo <= mid <= hi && Tidy(a, lo, mid, {}) && Tidy(b, mid, hi, {})
    ensures Tidy(Seq(a, b), lo, hi, {})
  {
  }

  lemma {:induction false} TidyConverted(from: Type, to: Type, code: Asm, lo: nat, hi: nat)
    requires Tidy(code, lo, hi, {})
    ensures Tidy(Seq(code, ConvIf(from, to, Done)), lo, hi, {})
  {
    hide AllEncodable, DefSet, RefSet, Distinct, ConvIf;
    Unfolding();
  }

  lemma {:induction false} TidyNot(n: nat, t: Type, code: Asm, hi: nat)
    requires n + 2 <= hi && Tidy(code, n + 2, hi, {})
    ensures Tidy(UnaryTemplate(LogicNot, t, n, code), n, hi, {})
  {
    hide AllEncodable, DefSet, RefSet, Distinct;
    Unfolding();
  }

  lemma {:induction false} TidyUnary(op: UnOp, n: nat, t: Type, code: Asm, hi: nat)
    requires op != LogicNot && Tidy(code, n, hi, {})
    ensures Tidy(UnaryTemplate(op, t, n, code), n, hi, {})
  {
    hide AllEncodable, DefSet, RefSet, Distinct;
    Unfolding();
  }

  lemma {:induction false} TidyIncDec(prefix: bool, up: bool, slot: int, t: Type, n: nat)
    ensures Tidy(IncDecTemplate(prefix, up, slot, t), n, n, {})
  {
    hide AllEncodable, DefSet, RefSet, Distinct;
    Unfolding();
  }

  lemma {:induction false} TidyLogic(decisive: bool, decided: Label, end: Label, code: Asm, n: nat, hi: nat)
    requires n + 2 <= hi && Tidy(code, n + 2, hi, {})
    requires decided.CodeLabel? && end.CodeLabel? && decided.id == n && end.id == n + 1
    ensures Tidy(LogicTemplate(decisive, decided, end, code), n, hi, {})
  {
    hide AllEncodable, DefSet, RefSet, Distinct;
    Unfolding();
  }

  lemma {:induction false} TidyArith(op: BinOp, left: Type, right: Type, code: Asm, n: nat, hi: nat)
    requires !IsLogic(op) && Tidy(code, n, hi, {})
    ensures Tidy(RightTemplate(op, left, right, n, code), n, hi, {})
  {
    hide AllEncodable, DefSet, RefSet, Distinct, ConvIf;
    Unfolding();
  }

  lemma {:induction false} TidyTernary(n: nat, t: Type, f: Type, cond: Asm, thn: Asm, els: Asm, n1: nat, n2: nat,
          hi: nat)
    requires n + 2 <= n1 <= n2 <= hi
    requires Tidy(cond, n + 2, n1, {}) && Tidy(els, n1, n2, {}) && Tidy(thn, n2, hi, {})
    ensures Tidy(TernaryTemplate(n, t, f, cond, thn, els), n, hi, {})
  {
    hide AllEncodable, DefSet, RefSet, Distinct, ConvIf;
    Unfolding();
  }

  // ---------------------------------------------------------------- statements

  lemma {:induction false} TidyStm(s: Stm, n: nat, loop: Loop)
    ensures Tidy(CodeStm(s, n, loop), n, n + LabelsOfStm(s), LoopLabels(loop))
    decreases s, 1
  {
    hide Within, AllEncodable, DefSet, RefSet, Distinct, Tidy, CodeExpr, LabelsOf, AssignTemplate, OpAssignTemplate,
      BumpTemplate, IfTemplate, IfElseTemplate, WhileTemplate, ForTemplate, TypeOf;
    match s
    case VarDecl(slot, t, init) =>
      if init.None? {
        TidyNothing(n, LoopLabels(loop));
      } else {
        TidyExpr(init.value, n);
        TidyAssign(slot, TypeOf(init.value), t, CodeExpr(init.value, n), n, n + LabelsOf(init.value), LoopLabels(loop));
      }
    case Assign(slot, t, e) =>
      TidyExpr(e, n);
      TidyAssign(slot, TypeOf(e), t, CodeExpr(e, n), n, n + LabelsOf(e), LoopLabels(loop));
    case OpAssign(slot, t, op, e) =>
      TidyRight(op, t, e, n);
      TidyOpAssign(slot, t, op, CodeRight(op, t, e, n), n, n + LabelsOfRight(op, e), LoopLabels(loop));
    case Bump(up, slot, t) => TidyBump(up, slot, t, n, LoopLabels(loop));
    case Block(ss) => TidyBlock(ss, n, loop);
    case If(c, thn, els) =>
      var m := n + LabelsOf(c);
      TidyExpr(c, n);
      if els.None? {
        TidyBlock(thn, m + 1, loop);
        TidyIf(n, m, CodeExpr(c, n), CodeBlock(thn, m + 1, loop), m + 1 + LabelsOfBlock(thn), LoopLabels(loop));
      } else {
        var k := m + 2 + LabelsOfBlock(thn);
        TidyBlock(thn, m + 2, loop);
        TidyStm(els.value, k, loop);
        TidyIfElse(n, m, CodeExpr(c, n), CodeBlock(thn, m + 2, loop), CodeStm(els.value, k, loop), k,
                   k + LabelsOfStm(els.value), LoopLabels(loop));
      }
    case While(_, _) => TidyLoop(s, n, loop);
    case For(_, _, _, _, _, _) => TidyLoop(s, n, loop);
    case Return(e, t) => TidyReturn(e, t, n, loop);
    case _ => TidyJump(s, n, loop);
  }

  lemma {:induction false} TidyLoop(s: Stm, n: nat, loop: Loop)
    requires s.While? || s.For?
    ensures Tidy(CodeStm(s, n, loop), n, n + LabelsOfStm(s), LoopLabels(loop))
    decreases s, 0
  {
    hide Within, AllEncodable, DefSet, RefSet, Distinct, Tidy, CodeExpr, LabelsOf, WhileTemplate, ForTemplate, TypeOf;
    match s
    case While(c, ss) =>
      var m := n + 2 + LabelsOf(c);
      var inner := InLoop(WhileStart(n), WhileEnd(n));
      TidyExpr(c, n + 2);
      TidyBlock(ss, m, inner);
      TidyWhile(n, CodeExpr(c, n + 2), CodeBlock(ss, m, inner), m, m + LabelsOfBlock(ss), LoopLabels(loop));
    case For(slot, t, a, b, step, ss) =>
      var nb := n + ForLabels(step) + LabelsOfStep(step);
      var m := nb + LabelsOf(b) + LabelsOf(a);
      var inner := InLoop(ForContinue(n, step), ForEnd(n, step));
      TidyBlock(ss, m, inner);
      TidyFor(slot, t, a, b, step, n, nb, CodeBlock(ss, m, inner), m, m + LabelsOfBlock(ss), LoopLabels(loop));
  }

  lemma {:induction false} TidyBlock(ss: seq<Stm>, n: nat, loop: Loop)
    ensures Tidy(CodeBlock(ss, n, loop), n, n + LabelsOfBlock(ss), LoopLabels(loop))
    decreases ss, 0
  {
    hide Within, AllEncodable, DefSet, RefSet, Distinct, Tidy, CodeStm, LabelsOfStm;
    if ss == [] {
      TidyNothing(n, LoopLabels(loop));
    } else {
      var m := n + LabelsOfStm(ss[0]);
      TidyStm(ss[0], n, loop);
      TidyBlock(ss[1..], m, loop);
      TidyPair(CodeStm(ss[0], n, loop), CodeBlock(ss[1..], m, loop), n, m, m + LabelsOfBlock(ss[1..]),
        LoopLabels(loop));
    }
  }

  lemma {:induction false} TidyNothing(n: nat, outer: set<Label>)
    ensures Tidy(Done, n, n, outer)
  {
  }

  lemma {:induction false} TidyPair(a: Asm, b: Asm, lo: nat, mid: nat, hi: nat, outer: set<Label>)
    requires lo <= mid <= hi && Tidy(a, lo, mid, outer) && Tidy(b, mid, hi, outer)
    ensures Tidy(Seq(a, b), lo, hi, outer)
  {
  }

  lemma {:induction false} TidyAssign(slot: int, from: Type, to: Type, code: Asm, lo: nat, hi: nat, outer: set<Label>)
    requires Tidy(code, lo, hi, {})
    ensures Tidy(AssignTemplate(slot, from, to, code), lo, hi, outer)
  {
    hide AllEncodable, DefSet, RefSet, Distinct, ConvIf;
    Unfolding();
  }

  lemma {:induction false} TidyOpAssign(slot: int, t: Type, op: BinOp, code: Asm, lo: nat, hi: nat, outer: set<Label>)
    requires Tidy(code, lo, hi, {})
    ensures Tidy(OpAssignTemplate(slot, t, op, code), lo, hi, outer)
  {
    hide AllEncodable, DefSet, RefSet, Distinct, ConvIf;
    Unfolding();
  }

  lemma {:induction false} TidyBump(up: bool, slot: int, t: Type, n: nat, outer: set<Label>)
    ensures Tidy(BumpTemplate(up, slot, t), n, n, outer)
  {
    hide AllEncodable, DefSet, RefSet, Distinct;
    Unfolding();
  }

  lemma {:induction false} TidyJump(s: Stm, n: nat, loop: Loop)
    requires s.Break? || s.Continue?
    ensures Tidy(CodeStm(s, n, loop), n, n, LoopLabels(loop))
  {
    hide AllEncodable, DefSet, RefSet, Distinct;
    Unfolding();
  }

  lemma {:induction false} TidyReturn(e: Option<Expr>, t: Type, n: nat, loop: Loop)
    ensures Tidy(CodeStm(Return(e, t), n, loop), n, n + LabelsOfStm(Return(e, t)), LoopLabels(loop))
  {
    hide AllEncodable, DefSet, RefSet, Distinct, ConvIf, CodeExpr, LabelsOf, TypeOf;
    if e.Some? {
      TidyExpr(e.value, n);
    }
    Unfolding();
  }

  lemma {:induction false} TidyIf(n: nat, m: nat, cond: Asm, thn: Asm, hi: nat, outer: set<Label>)
    requires n <= m < hi && Tidy(cond, n, m, {}) && Tidy(thn, m + 1, hi, outer)
    ensures Tidy(IfTemplate(m, cond, thn), n, hi, outer)
  {
    hide AllEncodable, DefSet, RefSet, Distinct;
    Unfolding();
  }

  lemma {:induction false} TidyIfElse(n: nat, m: nat, cond: Asm, thn: Asm, els: Asm, k: nat, hi: nat, outer: set<Label>)
    requires n <= m && m + 2 <= k <= hi && Tidy(cond, n, m, {}) && Tidy(thn, m + 2, k, outer) && Tidy(els, k, hi, outer)
    ensures Tidy(IfElseTemplate(m, cond, thn, els), n, hi, outer)
  {
    hide AllEncodable, DefSet, RefSet, Distinct;
    Unfolding();
  }

  lemma {:induction false} TidyWhile(n: nat, cond: Asm, body: Asm, m: nat, hi: nat, outer: set<Label>)
    requires n + 2 <= m <= hi && Tidy(cond, n + 2, m, {})
    requires Tidy(body, m, hi, LoopLabels(InLoop(WhileStart(n), WhileEnd(n))))
    ensures Tidy(WhileTemplate(n, cond, body), n, hi, outer)
  {
    hide AllEncodable, DefSet, RefSet, Distinct;
    Unfolding();
  }

  lemma {:induction false} TidyFor(slot: int, t: Type, a: Expr, b: Expr, step: Option<Expr>, n: nat, nb: nat,
          body: Asm, m: nat, hi: nat, outer: set<Label>)
    requires nb == n + ForLabels(step) + LabelsOfStep(step) && m == nb + LabelsOf(b) + LabelsOf(a) && m <= hi
    requires Tidy(body, m, hi, LoopLabels(InLoop(ForContinue(n, step), ForEnd(n, step))))
    ensures Tidy(ForTemplate(slot, t, a, b, step, n, nb, body), n, hi, outer)
  {
    hide AllEncodable, DefSet, RefSet, Distinct, ConvIf, CodeExpr, CodeForLoop, CodeForBounds, LabelsOf, TypeOf, Within;
    var loopCode := Def(ForStart(n, step), CodeForLoop(n, step, body));
    TidyForLoop(n, step, body, m, hi);
    TidyExpr(b, nb);
    TidyExpr(a, nb + LabelsOf(b));
    TidyBounds(slot, t, a, b, n, n + ForLabels(step), nb, m, hi, loopCode);
    var rest := CodeForBounds(slot, t, a, b, nb, loopCode);
    if step.None? {
      TidyNoStep(t, n, hi, rest);
    } else {
      TidyExpr(step.value, n + 6);
      TidyStep(t, step.value, n, nb, hi, rest);
    }
  }

  /** Distinct labels, none of them numbered in [lo, mid), and no reference to any other. */
  ghost predicate Around(a: Asm, n: nat, lo: nat, mid: nat, hi: nat) {
    && Distinct(a) && RefSet(a) <= DefSet(a) && AllEncodable(a)
    && forall l | l in DefSet(a) :: l.CodeLabel? && (n <= l.id < lo || mid <= l.id < hi)
  }

  lemma {:induction false} TidyStep(t: Type, step: Expr, n: nat, nb: nat, hi: nat, rest: Asm)
    requires nb == n + 6 + LabelsOf(step) && nb <= hi && Tidy(CodeExpr(step, n + 6), n + 6, nb, {})
    requires Around(rest, n, n + 6, nb, hi) && StepValid(n) !in DefSet(rest)
    ensures Tidy(CodeForStep(t, Some(step), n, rest), n, hi, {})
  {
    hide AllEncodable, DefSet, RefSet, Distinct, ConvIf, CodeExpr, LabelsOf, TypeOf;
    Unfolding();
  }

  lemma {:induction false} TidyNoStep(t: Type, n: nat, hi: nat, rest: Asm)
    requires n + 3 <= hi && Around(rest, n, n + 3, n + 3, hi)
    ensures Tidy(CodeForStep(t, None, n, rest), n, hi, {})
  {
    hide AllEncodable, DefSet, RefSet, Distinct;
    Unfolding();
  }

  lemma {:induction false} TidyBounds(slot: int, t: Type, a: Expr, b: Expr, n: nat, lo: nat, nb: nat, m: nat, hi: nat,
          rest: Asm)
    requires n <= lo <= nb && m == nb + LabelsOf(b) + LabelsOf(a) && m <= hi && Around(rest, n, lo, m, hi)
    requires Tidy(CodeExpr(b, nb), nb, nb + LabelsOf(b), {})
    requires Tidy(CodeExpr(a, nb + LabelsOf(b)), nb + LabelsOf(b), m, {})
    ensures Around(CodeForBounds(slot, t, a, b, nb, rest), n, lo, nb, hi)
    ensures forall l: Label | l.CodeLabel? && l.id < nb && l !in DefSet(rest) ::
      l !in DefSet(CodeForBounds(slot, t, a, b, nb, rest))
  {
    hide AllEncodable, DefSet, RefSet, Distinct, ConvIf, CodeExpr, LabelsOf, TypeOf;
    Unfolding();
  }

  lemma {:induction false} TidyForLoop(n: nat, step: Option<Expr>, body: Asm, m: nat, hi: nat)
    requires n + ForLabels(step) <= m <= hi
    requires Tidy(body, m, hi, LoopLabels(InLoop(ForContinue(n, step), ForEnd(n, step))))
    ensures Around(Def(ForStart(n, step), CodeForLoop(n, step, body)), n, n + ForLabels(step), m, hi)
    ensures step.Some? ==> StepValid(n) !in DefSet(Def(ForStart(n, step), CodeForLoop(n, step, body)))
  {
    hide AllEncodable, DefSet, RefSet, Distinct, CodeForBody, Around;
    TidyForBody(n, step, body, m, hi);
    if step.Some? {
      SteppedLoop(n, step, body, m, hi);
      StepLabelOutside(n, step, body, m, hi);
    } else {
      UnitLoop(n, step, body, m, hi);
    }
  }

  lemma {:induction false} UnitLoop(n: nat, step: Option<Expr>, body: Asm, m: nat, hi: nat)
    requires step.None? && n + ForLabels(step) <= m <= hi
    requires Tidy(body, m, hi, LoopLabels(InLoop(ForContinue(n, step), ForEnd(n, step))))
    ensures Around(Def(ForStart(n, step), CodeForLoop(n, step, body)), n, n + ForLabels(step), m, hi)
  {
    hide AllEncodable, DefSet, RefSet, Distinct, CodeForBody;
    Unfolding();
    TidyForBody(n, step, body, m, hi);
  }

  lemma {:induction false} SteppedLoop(n: nat, step: Option<Expr>, body: Asm, m: nat, hi: nat)
    requires step.Some? && n + ForLabels(step) <= m <= hi
    requires Tidy(body, m, hi, LoopLabels(InLoop(ForContinue(n, step), ForEnd(n, step))))
    ensures Around(Def(ForStart(n, step), CodeForLoop(n, step, body)), n, n + ForLabels(step), m, hi)
  {
    hide AllEncodable, DefSet, RefSet, Distinct, CodeForBody;
    Unfolding();
    TidyForBody(n, step, body, m, hi);
  }

  /** The label in front of the loop is not defined in it again. */
  lemma {:induction false} StepLabelOutside(n: nat, step: Option<Expr>, body: Asm, m: nat, hi: nat)
    requires step.Some? && n + ForLabels(step) <= m <= hi
    requires Tidy(body, m, hi, LoopLabels(InLoop(ForContinue(n, step), ForEnd(n, step))))
    ensures StepValid(n) !in DefSet(Def(ForStart(n, step), CodeForLoop(n, step, body)))
  {
    hide AllEncodable, DefSet, RefSet, Distinct, CodeForBody;
    Unfolding();
    TidyForBody(n, step, body, m, hi);
  }

  lemma {:induction false} TidyForBody(n: nat, step: Option<Expr>, body: Asm, m: nat, hi: nat)
    requires n + ForLabels(step) <= m <= hi
    requires Tidy(body, m, hi, LoopLabels(InLoop(ForContinue(n, step), ForEnd(n, step))))
    ensures var a := CodeForBody(n, step, body);
      && DefSet(a) == DefSet(body) + {ForContinue(n, step), ForEnd(n, step)} && Distinct(a)
      && RefSet(a) == RefSet(body) + {ForStart(n, step)} && AllEncodable(a)
  {
    hide AllEncodable, DefSet, RefSet, Distinct;
    Unfolding();
  }
}
