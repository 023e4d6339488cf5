/** Folding in front of the code generator: the folded program is in the compiler's domain, and its bytes
    behave as the program that was written. */
module FoldedProgram {
  import opened Words
  import opened Isa
  import opened Source
  import opened Domain
  import opened CodeGen
  import opened Folder
  import opened FolderLaws
  import opened FolderStatements
  import opened Assembler
  import opened Loading
  import opened Program
  import opened Arithmetic
  import opened EndToEnd
  import TypeRules

  /** Where a constant condition chooses the int branch of a ternary that mixes int and char, the conversion
      to char, which clears the high half, is gone: that branch must have none to clear. */
  predicate Settled(e: Expr, fr: Frame) {
    match e
    case Unary(_, x) => Settled(x, fr)
    case Binary(_, l, r) => Settled(l, fr) && Settled(r, fr)
    case Ternary(c, t, f) =>
      && Settled(c, fr) && Settled(t, fr) && Settled(f, fr)
      && (FoldsTo(c, true) ==> TypeOf(t) == TypeOf(e) || Clean(t, fr))
      && (FoldsTo(c, false) ==> TypeOf(f) == TypeOf(e) || Clean(f, fr))
    case Cast(_, x) => Settled(x, fr)
    case _ => true
  }

  lemma {:induction false} LiteralDomain(e: Expr, fr: Frame)
    requires IsLiteral(e)
    ensures Sound(e, fr) && Clean(e, fr) && Need(e) == 1
  {
  }

  lemma {:induction false} LiteralType(e: Expr, fr: Frame)
    requires WellTyped(e, fr) && Settled(e, fr) && Sound(e, fr) && FoldsAway(e)
    ensures TypeOf(Fold(e).e) == TypeOf(e) || (TypeOf(e) == TChar && TypeOf(Fold(e).e) == TInt)
  {
    match e
    case Unary(op, x) =>
      FoldTyped(x, fr);
      LiteralType(x, fr);
    case Binary(op, l, r) =>
      FoldTyped(e, fr);
      if !IsLogic(op) {
        FoldTyped(l, fr);
        FoldTyped(r, fr);
        FoldOperatorTyped(op, Fold(l).e, Fold(r).e, fr);
      }
    case Ternary(c, t, f) =>
      FoldTyped(c, fr);
      if Fold(c).e.b { LiteralType(t, fr); } else { LiteralType(f, fr); }
    case Cast(ty, x) =>
      FoldTyped(x, fr);
    case _ =>
  }

  /** The second expression can stand for the first in front of the code generator: still in its domain, no
      more operand stack, and no dirtier, at the same type or as a clean int in place of a char. */
  predicate Replaces(e: Expr, f: Expr, fr: Frame) {
    && Sound(f, fr) && Need(f) <= Need(e)
    && ((TypeOf(f) == TypeOf(e) && (Clean(e, fr) ==> Clean(f, fr)))
         || (TypeOf(e) == TChar && TypeOf(f) == TInt && Clean(f, fr)))
  }

  lemma {:induction false} UnderUnary(op: UnOp, x: Expr, y: Expr, fr: Frame)
    requires Replaces(x, y, fr) && Sound(Unary(op, x), fr)
    ensures Replaces(Unary(op, x), Unary(op, y), fr)
  {
  }

  lemma {:induction false} UnderCast(ty: Type, x: Expr, y: Expr, fr: Frame)
    requires Replaces(x, y, fr)
    ensures Replaces(Cast(ty, x), Cast(ty, y), fr)
  {
    assert CleanAs(x, ty, fr) ==> CleanAs(y, ty, fr);
  }

  lemma {:induction false} UnderCondition(c: Expr, d: Expr, t: Expr, f: Expr, fr: Frame)
    requires Replaces(c, d, fr) && Sound(t, fr) && Sound(f, fr)
    ensures Replaces(Ternary(c, t, f), Ternary(d, t, f), fr)
  {
    hide TernaryType;
  }

  lemma {:induction false} UnderBinary(op: BinOp, l: Expr, r: Expr, l': Expr, r': Expr, fr: Frame)
    requires Replaces(l, l', fr) && Replaces(r, r', fr) && Sound(Binary(op, l, r), fr)
    ensures Replaces(Binary(op, l, r), Binary(op, l', r'), fr)
  {
    assert CleanAs(l, TInt, fr) ==> CleanAs(l', TInt, fr);
    assert CleanAs(r, TInt, fr) ==> CleanAs(r', TInt, fr);
  }

  lemma {:induction false} Chosen(c: Expr, t: Expr, f: Expr, g: Expr, first: bool, fr: Frame)
    requires Replaces(if first then t else f, g, fr)
    requires (TypeOf(t) == TBool <==> TypeOf(f) == TBool)
    requires (TypeOf(if first then t else f) == TypeOf(Ternary(c, t, f)) || Clean(if first then t else f, fr))
    ensures Replaces(Ternary(c, t, f), g, fr)
  {
    var ty, h := TypeOf(Ternary(c, t, f)), if first then t else f;
    assert Clean(Ternary(c, t, f), fr) ==> CleanAs(h, ty, fr);
  }

  lemma {:induction false} SoundParts(e: Expr, fr: Frame)
    requires Sound(e, fr)
    ensures e.Unary? || e.Cast? ==> Sound(e.e, fr)
    ensures e.Binary? ==> Sound(e.l, fr) && Sound(e.r, fr)
    ensures e.Ternary? ==> Sound(e.cond, fr) && Sound(e.thn, fr) && Sound(e.els, fr)
    ensures Replaces(e, e, fr)
  {
  }

  /** Folding keeps the type, stays in the domain of the code generator, and needs no more operand stack. */
  lemma {:induction false} FoldReplaces(e: Expr, fr: Frame)
    requires WellTyped(e, fr) && Settled(e, fr) && Sound(e, fr) && Fold(e).Folded?
    ensures Replaces(e, Fold(e).e, fr)
  {
    hide Replaces, Sound, Clean, Need, TypeOf, SafeOperator, FoldOperator, FoldUnary, ConvertLiteral;
    NeedPositive(e);
    SoundParts(e, fr);
    if FoldsAway(e) {
      LiteralReplaces(e, fr);
    } else {
      match e {
        case Unary(op, x) =>
          FoldReplaces(x, fr);
          UnderUnary(op, x, Fold(x).e, fr);
        case Binary(op, l, r) =>
          FoldReplaces(l, fr);
          SoundParts(r, fr);
          if Fold(r).Folded? {
            FoldReplaces(r, fr);
            UnderBinary(op, l, r, Fold(l).e, Fold(r).e, fr);
          }
          UnderBinary(op, l, r, Fold(l).e, r, fr);
        case Ternary(c, t, f) =>
          FoldReplaces(c, fr);
          if FoldsAway(c) {
            FoldReplaces(if Fold(c).e.b then t else f, fr);
            Chosen(c, t, f, Fold(e).e, Fold(c).e.b, fr);
          } else {
            UnderCondition(c, Fold(c).e, t, f, fr);
          }
        case Cast(ty, x) =>
          FoldReplaces(x, fr);
          UnderCast(ty, x, Fold(x).e, fr);
        case _ =>
      }
    }
  }

  lemma {:induction false} LiteralReplaces(e: Expr, fr: Frame)
    requires WellTyped(e, fr) && Settled(e, fr) && Sound(e, fr) && FoldsAway(e)
    ensures Replaces(e, Fold(e).e, fr)
  {
    hide Fold, Sound, Clean, Need, TypeOf;
    NeedPositive(e);
    LiteralDomain(Fold(e).e, fr);
    LiteralType(e, fr);
  }

  // ---------------------------------------------------------------- statements

  predicate SettledStm(s: Stm, fr: Frame)
    decreases s, 1
  {
    match s
    case VarDecl(_, _, init) => init.Some? ==> Settled(init.value, fr)
    case Assign(_, _, e) => Settled(e, fr)
    case OpAssign(_, _, _, e) => Settled(e, fr)
    case Block(ss) => SettledBlock(ss, fr)
    case If(c, thn, els) => Settled(c, fr) && SettledBlock(thn, fr) && (els.Some? ==> SettledStm(els.value, fr))
    case While(c, ss) => Settled(c, fr) && SettledBlock(ss, fr)
    case For(_, _, a, b, step, ss) => Settled(a, fr) && Settled(b, fr) && (step.Some? ==> Settled(step.value, fr))
      && SettledBlock(ss, fr)
    case Return(e, _) => e.Some? ==> Settled(e.value, fr)
    case _ => true
  }

  predicate SettledBlock(ss: seq<Stm>, fr: Frame)
    decreases ss, 0
  {
    forall i | 0 <= i < |ss| :: SettledStm(ss[i], fr)
  }

  predicate Compilable(s: Stm, fr: Frame, pl: Place) {
    WellTypedStm(s, fr, pl) && SoundStm(s, fr)
  }

  /** What a folded right-hand side still satisfies. */
  lemma {:induction false} FoldAsReplaces(e: Expr, ty: Type, fr: Frame)
    requires WellTyped(e, fr) && Settled(e, fr) && Sound(e, fr) && Convertible(TypeOf(e), ty) && FoldAs(e, ty).Folded?
    ensures var f := FoldAs(e, ty).e;
      WellTyped(f, fr) && Convertible(TypeOf(f), ty) && Sound(f, fr) && (CleanAs(e, ty, fr) ==> CleanAs(f, ty, fr))
        && Need(f) <= Need(e)
  {
    hide Fold, Sound, Clean, Need;
    FoldTyped(e, fr);
    FoldReplaces(e, fr);
    NeedPositive(e);
    if FoldsAway(e) {
      ConvertedWord(ty, Fold(e).e, fr);
      LiteralDomain(FoldAs(e, ty).e, fr);
    }
  }

  /** The same for the right-hand side of a compound assignment, whose type need not convert. */
  lemma {:induction false} FoldOperandReplaces(op: BinOp, slot: int, e: Expr, ty: Type, fr: Frame)
    requires WellTyped(e, fr) && Settled(e, fr) && SoundRight(op, true, e, fr) && BinaryAccepts(op, ty, TypeOf(e))
    requires FoldAs(e, ty).Folded?
    requires !IsComparison(op)
    ensures var f := FoldAs(e, ty).e;
      WellTyped(f, fr) && BinaryAccepts(op, ty, TypeOf(f)) && SoundRight(op, true, f, fr) && Need(f) <= Need(e)
  {
    hide Fold, Sound, Clean, Need;
    FoldTyped(e, fr);
    FoldReplaces(e, fr);
    NeedPositive(e);
    if FoldsAway(e) {
      ConvertedWord(ty, Fold(e).e, fr);
      LiteralDomain(FoldAs(e, ty).e, fr);
    }
  }

  lemma {:induction false} FoldBoundReplaces(e: Expr, fr: Frame)
    requires WellTyped(e, fr) && IsNumeric(TypeOf(e)) && FoldBound(e).Folded?
    ensures var f := FoldBound(e).e; WellTyped(f, fr) && IsNumeric(TypeOf(f)) && Sound(f, fr) && Need(f) <= Need(e)
  {
    hide Fold, Sound, Clean, Need;
    FoldTyped(e, fr);
    NeedPositive(e);
    ConvertedWord(TInt, Fold(e).e, fr);
    LiteralDomain(FoldBound(e).e, fr);
  }

  /** A folded statement is still accepted by the analyser and in the code generator's domain, and needs no
      more operand stack. */
  lemma {:induction false} StmStaysCompilable(s: Stm, fr: Frame, pl: Place)
    requires Compilable(s, fr, pl) && SettledStm(s, fr) && FoldStm(s).Rewritten?
    ensures Compilable(FoldStm(s).s, fr, pl) && NeedStm(FoldStm(s).s) <= NeedStm(s)
    decreases s, 1
  {
    hide Fold, FoldAs, FoldBound, WellTyped, Sound, SoundRight, CleanAs, Need, Settled, BinaryAccepts, Converts,
      WellTypedBlock, SoundBlock, NeedBlock, SettledBlock, FoldBlock;
    match s {
      case VarDecl(_, ty, init) => if init.Some? { FoldAsReplaces(init.value, ty, fr); }
      case Assign(_, ty, e) => FoldAsReplaces(e, ty, fr);
      case OpAssign(slot, ty, op, e) => FoldOperandReplaces(op, slot, e, ty, fr);
      case Block(ss) => BlockStaysCompilable(ss, fr, pl);
      case If(c, thn, els) =>
        ConditionReplaces(c, fr);
        BlockStaysCompilable(thn, fr, pl);
        if els.Some? { StmStaysCompilable(els.value, fr, pl); }
      case While(c, ss) =>
        ConditionReplaces(c, fr);
        BlockStaysCompilable(ss, fr, pl.(inLoop := true));
      case For(_, _, _, _, _, _) => RangeStaysCompilable(s, fr, pl);
      case Return(e, ty) => if e.Some? { FoldAsReplaces(e.value, ty, fr); }
      case _ =>
    }
  }

  lemma {:induction false} RangeStaysCompilable(s: Stm, fr: Frame, pl: Place)
    requires s.For? && Compilable(s, fr, pl) && SettledStm(s, fr) && FoldStm(s).Rewritten?
    ensures Compilable(FoldStm(s).s, fr, pl) && NeedStm(FoldStm(s).s) <= NeedStm(s)
    decreases s, 0
  {
    hide Fold, FoldAs, FoldBound, WellTyped, Sound, SoundRight, CleanAs, Need, Settled, BinaryAccepts, Converts,
      WellTypedBlock, SoundBlock, NeedBlock, SettledBlock, FoldBlock;
    FoldBoundReplaces(s.start, fr);
    FoldBoundReplaces(s.end, fr);
    if s.step.Some? {
      FoldBoundReplaces(s.step.value, fr);
    }
    BlockStaysCompilable(s.body, fr, pl.(inLoop := true));
  }

  lemma {:induction false} ConditionReplaces(c: Expr, fr: Frame)
    requires WellTyped(c, fr) && Settled(c, fr) && Sound(c, fr) && TypeOf(c) == TBool && Fold(c).Folded?
    ensures var d := Fold(c).e; WellTyped(d, fr) && TypeOf(d) == TypeOf(c) && Sound(d, fr) && Need(d) <= Need(c)
  {
    FoldTyped(c, fr);
    FoldReplaces(c, fr);
  }

  lemma {:induction false} BlockStaysCompilable(ss: seq<Stm>, fr: Frame, pl: Place)
    requires WellTypedBlock(ss, fr, pl) && SoundBlock(ss, fr) && SettledBlock(ss, fr) && FoldBlock(ss).RewrittenAll?
    ensures WellTypedBlock(FoldBlock(ss).ss, fr, pl) && SoundBlock(FoldBlock(ss).ss, fr)
    ensures NeedBlock(FoldBlock(ss).ss) <= NeedBlock(ss)
    decreases ss, 0
  {
    hide WellTypedStm, SoundStm, NeedStm, SettledStm, FoldStm;
    if ss != [] {
      StmStaysCompilable(ss[0], fr, pl);
      BlockStaysCompilable(ss[1..], fr, pl);
      var f := FoldBlock(ss).ss;
      assert f[0] == FoldStm(ss[0]).s && f[1..] == FoldBlock(ss[1..]).ss;
    }
  }

  /** Outside that: `(true ? ~x : 'a') == -6` is compiled with a conversion of ~x to char, which drops its high
      half. Folded, ~x reaches the comparison as it is, and for x == 5 the VM finds it different from -6. */
  lemma {:induction false} MixedTernaryExample(x: int, fr: Frame)
    ensures var inner := Ternary(BoolLit(true), Unary(BitwiseNot, Local(x, TInt)), CharLit(97));
      var e, f := Binary(Equal, inner, IntLit(-6)), Binary(Equal, Unary(BitwiseNot, Local(x, TInt)), IntLit(-6));
      && Sound(e, fr) && !Settled(e, fr) && Fold(e) == Folded(f, false) && !Sound(f, fr)
    ensures Eval(Binary(Equal, Unary(BitwiseNot, Local(x, TInt)), IntLit(-6)), map[x := 5])
      == Outcome.Ok((1, map[x := 5]))
    ensures Apply(CEQ, BitNot(Arithmetic.Value(I32, 5)).value, Arithmetic.Value(I32, ToWord(-6)))
      == Outcome.Ok(Truth(false))
  {
    var b := Unary(BitwiseNot, Local(x, TInt));
    var inner := Ternary(BoolLit(true), b, CharLit(97));
    FoldChosen(b, CharLit(97), IntLit(-6));
    MixedEquality(b, CharLit(97), IntLit(-6), fr);
    assert !Clean(b, fr) && Sound(b, fr);
    assert Eval(b, map[x := 5]) == Outcome.Ok((ToWord(-6), map[x := 5]));
  }

  lemma {:induction false} FoldChosen(t: Expr, f: Expr, r: Expr)
    requires Fold(t) == Folded(t, false)
    ensures Fold(Binary(Equal, Ternary(BoolLit(true), t, f), r)) == Folded(Binary(Equal, t, r), false)
  {
    assert Fold(BoolLit(true)) == Folded(BoolLit(true), true);
    assert Fold(Ternary(BoolLit(true), t, f)) == Fold(t);
  }

  /** An equality with a mixed ternary is in the domain whatever its int branch is like, one with that branch
      itself only if the branch is clean. */
  lemma {:induction false} MixedEquality(t: Expr, f: Expr, r: Expr, fr: Frame)
    requires TypeOf(t) == TInt && TypeOf(f) == TChar && TypeOf(r) == TInt && Sound(t, fr) && Sound(f, fr)
    requires Sound(r, fr)
    requires Clean(r, fr)
    ensures Sound(Binary(Equal, Ternary(BoolLit(true), t, f), r), fr)
    ensures Sound(Binary(Equal, t, r), fr) <==> Clean(t, fr)
    ensures !Clean(t, fr) ==> !Settled(Binary(Equal, Ternary(BoolLit(true), t, f), r), fr)
  {
    var inner := Ternary(BoolLit(true), t, f);
    assert TypeOf(inner) == TChar && CleanAs(inner, TInt, fr) && CleanAs(r, TInt, fr)
      && CleanAs(t, TInt, fr) == Clean(t, fr);
    assert Sound(inner, fr);
    assert FoldsTo(BoolLit(true), true);
    assert !Clean(t, fr) ==> !Settled(inner, fr);
  }

  // ---------------------------------------------------------------- programs

  datatype ProgramResult = Optimised(ms: seq<ScopeMethod>) | Refused(why: Failure)

  /** optimise: statement after statement. */
  function Optimise(ms: seq<ScopeMethod>): ProgramResult {
    if ms == [] then Optimised([])
    else
      match FoldStm(ms[0].body)
      case StmFailed(w) => Refused(w)
      case Rewritten(s) =>
        match Optimise(ms[1..])
        case Refused(w) => Refused(w)
        case Optimised(rest) => Optimised([ms[0].(body := s)] + rest)
  }

  /** Some choice of dirty slots fits the method before and after folding. */
  ghost predicate OptimisableMethod(m: ScopeMethod) {
    SafeStm(m.body) && exists dirty: set<int> :: MethodFits(m, dirty) && SettledStm(m.body, Frame(0, m.locals, dirty))
  }

  ghost predicate Optimisable(ms: seq<ScopeMethod>) {
    forall i | 0 <= i < |ms| :: OptimisableMethod(ms[i])
  }

  /** Optimising changes neither the run of a program nor the compiler's ability to compile it. */
  lemma {:induction false} OptimisePreserves(ms: seq<ScopeMethod>, hb: int)
    requires Optimisable(ms) && Optimise(ms).Optimised?
    ensures ProgramOk(Optimise(ms).ms) && |Optimise(ms).ms| == |ms|
    ensures forall fuel :: RunMethods(fuel, Optimise(ms).ms, hb) == RunMethods(fuel, ms, hb)
  {
    hide Exec, FoldStm, WellTypedStm, SoundStm, NeedStm, SafeStm, SettledStm;
    if ms != [] {
      var m := ms[0];
      OptimisePreserves(ms[1..], hb);
      assert OptimisableMethod(m);
      var dirty: set<int> :| MethodFits(m, dirty) && SettledStm(m.body, Frame(0, m.locals, dirty));
      StmStaysCompilable(m.body, Frame(0, m.locals, dirty), Place(false, false));
      var o := Optimise(ms).ms;
      assert o[0] == m.(body := FoldStm(m.body).s) && o[1..] == Optimise(ms[1..]).ms;
      assert MethodFits(o[0], dirty);
      forall fuel
        ensures RunMethods(fuel, o, hb) == RunMethods(fuel, ms, hb)
      {
        StmPreserved(fuel, m.body, Frame(0, m.locals, dirty), Place(false, false), map[]);
      }
    }
  }

  /** Fold, compile, assemble, load, run: the VM on its pages ends on the bytes of the optimised program exactly as
      the program that was written does. */
  lemma {:induction false} OptimisedProgramCorrect(ms: seq<ScopeMethod>, r: Ending)
    requires Optimisable(ms) && Optimise(ms).Optimised? && r != Unfinished
    requires CodeLen(ProgramStatements(Optimise(ms).ms)) + HEADER_SIZE < W32
    requires CodeInPages(ProgramStatements(Optimise(ms).ms))
    ensures var o := Optimise(ms).ms;
      && AllKnown(ProgramStatements(o), Table(ProgramStatements(o))) && ReadBytecode(ProgramBytes(o)).Some?
      && var l := ReadBytecode(ProgramBytes(o)).value;
         && (PagedEnds(StartOf(l), StatusOf(r)) <==> SourceEnds(ms, l.hb, r))
         && (PagedRunsForever(StartOf(l)) <==> SourceDiverges(ms, l.hb))
  {
    hide ProgramOk, Optimise, Optimisable, ProgramStatements, ProgramBytes, StartOf, PagedEnds, PagedRunsForever,
      RunMethods, ReadBytecode, Table, CodeLen, CodeInPages;
    var o := Optimise(ms).ms;
    OptimisePreserves(ms, 0);
    CompiledProgramCorrect(o, r);
    OptimisePreserves(ms, ReadBytecode(ProgramBytes(o)).value.hb);
  }

  // ---------------------------------------------------------------- a lower bound of the domain

  /** No char, no `//`, and a logical operator only in front of a variable. */
  predicate Tame(e: Expr) {
    match e
    case CharLit(_) => false
    case Local(_, t) => t != TChar
    case IncDec(_, _, _, t) => t != TChar
    case Unary(_, x) => Tame(x)
    case Binary(op, l, r) => op != IntDivide && Tame(l) && Tame(r) && (IsLogic(op) ==> r.Local?)
    case Ternary(c, t, f) => Tame(c) && Tame(t) && Tame(f)
    case Cast(ty, x) => ty != TChar && Tame(x)
    case _ => true
  }

  predicate TameStm(s: Stm)
    decreases s, 1
  {
    match s
    case VarDecl(_, _, init) => init.Some? ==> Tame(init.value)
    case Assign(_, _, e) => Tame(e)
    case OpAssign(_, _, _, e) => Tame(e)
    case Block(ss) => TameBlock(ss)
    case If(c, thn, els) => Tame(c) && TameBlock(thn) && (els.Some? ==> TameStm(els.value))
    case While(c, ss) => Tame(c) && TameBlock(ss)
    case For(_, _, a, b, step, ss) => Tame(a) && Tame(b) && (step.Some? ==> Tame(step.value)) && TameBlock(ss)
    case Return(e, _) => e.Some? ==> Tame(e.value)
    case _ => true
  }

  predicate TameBlock(ss: seq<Stm>)
    decreases ss, 0
  {
    forall i | 0 <= i < |ss| :: TameStm(ss[i])
  }

  lemma {:induction false} TameIsSafe(e: Expr, fr: Frame)
    requires WellTyped(e, fr) && Tame(e)
    ensures Safe(e) && Settled(e, fr) && TypeOf(e) != TChar
    ensures FoldsAway(e) ==> !Fold(e).e.CharLit?
  {
    hide FoldOperator, FoldUnary, ConvertLiteral, SafeOperator, Clean;
    FoldTyped(e, fr);
    match e
    case Unary(op, x) =>
      TameIsSafe(x, fr);
      if FoldsAway(x) { NoCharUnary(op, Fold(x).e); }
    case Binary(op, l, r) =>
      TameIsSafe(l, fr);
      TameIsSafe(r, fr);
      if !IsLogic(op) && FoldsAway(l) && FoldsAway(r) { NoCharOperator(op, Fold(l).e, Fold(r).e); }
    case Ternary(c, t, f) =>
      TameIsSafe(c, fr);
      TameIsSafe(t, fr);
      TameIsSafe(f, fr);
    case Cast(ty, x) =>
      TameIsSafe(x, fr);
      if FoldsAway(x) { NoCharCast(ty, Fold(x).e); }
    case _ =>
  }

  lemma {:induction false} NoCharUnary(op: UnOp, x: Expr)
    requires IsLiteral(x) && !x.CharLit?
    ensures FoldUnary(op, x).Folded? ==> !FoldUnary(op, x).e.CharLit?
  {
  }

  lemma {:induction false} NoCharCast(ty: Type, x: Expr)
    requires IsLiteral(x) && !x.CharLit? && ty != TChar
    ensures ConvertLiteral(ty, x).Folded? ==> !ConvertLiteral(ty, x).e.CharLit?
  {
  }

  lemma {:induction false} NoCharOperator(op: BinOp, l: Expr, r: Expr)
    requires IsLiteral(l) && IsLiteral(r) && !l.CharLit? && !r.CharLit? && op != IntDivide
    ensures SafeOperator(op, l, r)
    ensures FoldOperator(op, l, r).Folded? ==> !FoldOperator(op, l, r).e.CharLit?
  {
    hide Pow2, Bits, TruncMod, Quotient;
  }

  lemma {:induction false} TameStmIsSafe(s: Stm, fr: Frame, pl: Place)
    requires WellTypedStm(s, fr, pl) && TameStm(s)
    ensures SafeStm(s) && SettledStm(s, fr)
    decreases s, 1
  {
    hide WellTyped, Safe, Settled, Tame, TypeOf, Convertible, BinaryAccepts;
    match s
    case VarDecl(_, _, init) => if init.Some? { TameIsSafe(init.value, fr); }
    case Assign(_, _, e) => TameIsSafe(e, fr);
    case OpAssign(_, _, _, e) => TameIsSafe(e, fr);
    case Block(ss) => TameBlockIsSafe(ss, fr, pl);
    case If(c, thn, els) =>
      TameIsSafe(c, fr);
      TameBlockIsSafe(thn, fr, pl);
      if els.Some? { TameStmIsSafe(els.value, fr, pl); }
    case While(c, ss) =>
      TameIsSafe(c, fr);
      TameBlockIsSafe(ss, fr, pl.(inLoop := true));
    case For(_, _, a, b, step, ss) =>
      TameIsSafe(a, fr);
      TameIsSafe(b, fr);
      if step.Some? { TameIsSafe(step.value, fr); }
      TameBlockIsSafe(ss, fr, pl.(inLoop := true));
    case Return(e, _) => if e.Some? { TameIsSafe(e.value, fr); }
    case _ =>
  }

  lemma {:induction false} TameBlockIsSafe(ss: seq<Stm>, fr: Frame, pl: Place)
    requires WellTypedBlock(ss, fr, pl) && TameBlock(ss)
    ensures SafeBlock(ss) && SettledBlock(ss, fr)
    decreases ss, 0
  {
    hide WellTypedStm, TameStm, SafeStm, SettledStm;
    forall i | 0 <= i < |ss|
      ensures SafeStm(ss[i]) && SettledStm(ss[i], fr)
    {
      TameStmIsSafe(ss[i], fr, pl);
    }
  }

  /** Every well-typed program without complements, chars, `//`, and without && and || but in front of a variable, of
      bounded nesting and locals, may be optimised. */
  lemma {:induction false} TameProgramOptimisable(ms: seq<ScopeMethod>)
    requires forall i | 0 <= i < |ms| ::
      && WellTypedStm(ms[i].body, Frame(0, ms[i].locals, {}), Place(false, false)) && TypeRules.PlainStm(ms[i].body)
      && TameStm(ms[i].body) && ms[i].locals <= 510 && TypeRules.StmDepth(ms[i].body) <= 1000
    ensures Optimisable(ms)
  {
    hide WellTypedStm, TypeRules.PlainStm, TameStm, SoundStm, NeedStm, TypeRules.StmDepth, SafeStm, SettledStm;
    forall i | 0 <= i < |ms|
      ensures OptimisableMethod(ms[i])
    {
      var fr := Frame(0, ms[i].locals, {});
      TypeRules.PlainIsSound(ms[i].body, fr);
      TypeRules.StmNeedBounded(ms[i].body);
      TameStmIsSafe(ms[i].body, fr, Place(false, false));
      assert MethodFits(ms[i], {}) && SettledStm(ms[i].body, fr);
    }
  }
}
