/** Folding whole statements and programs, and the folded program through the code generator. */
module FolderStatements {
  import opened Words
  import opened Isa
  import opened Source
  import opened Folder
  import opened FolderLaws
  import opened FoldedForms

  /** Statements all of whose expressions are in the safe domain of the folder. */
  predicate SafeStm(s: Stm)
    decreases s, 1
  {
    match s
    case VarDecl(_, _, init) => init.Some? ==> Safe(init.value)
    case Assign(_, _, e) => Safe(e)
    case OpAssign(_, _, _, e) => Safe(e)
    case Block(ss) => SafeBlock(ss)
    case If(c, thn, els) => Safe(c) && SafeBlock(thn) && (els.Some? ==> SafeStm(els.value))
    case While(c, ss) => Safe(c) && SafeBlock(ss)
    case For(_, _, a, b, step, ss) => Safe(a) && Safe(b) && (step.Some? ==> Safe(step.value)) && SafeBlock(ss)
    case Return(e, _) => e.Some? ==> Safe(e.value)
    case _ => true
  }

  predicate SafeBlock(ss: seq<Stm>)
    decreases ss, 0
  {
    forall i | 0 <= i < |ss| :: SafeStm(ss[i])
  }

  // ---------------------------------------------------------------- meaning

  lemma {:induction false} FoldAsPreserves(e: Expr, ty: Type, fr: Frame, st: Store)
    requires WellTyped(e, fr) && Safe(e) && FoldAs(e, ty).Folded?
    ensures Eval(FoldAs(e, ty).e, st) == Eval(e, st)
  {
    FoldPreserves(e, fr, st);
    FoldTyped(e, fr);
    if FoldsAway(e) {
      ConvertedWord(ty, Fold(e).e, fr);
      LiteralValue(Fold(e).e, st);
      LiteralValue(FoldAs(e, ty).e, st);
    }
  }

  lemma {:induction false} FoldBoundPreserves(e: Expr, fr: Frame, st: Store)
    requires WellTyped(e, fr) && Safe(e) && FoldBound(e).Folded?
    ensures Eval(FoldBound(e).e, st) == Eval(e, st)
  {
    FoldAsPreserves(e, TInt, fr, st);
  }

  lemma {:induction false} StepPreserves(step: Option<Expr>, fr: Frame, st: Store)
    requires (step.Some? ==> WellTyped(step.value, fr) && Safe(step.value)) && FoldStep(step).Folded?
    ensures EvalStep(if step.None? then None else Some(FoldStep(step).e), st) == EvalStep(step, st)
  {
    if step.Some? {
      FoldBoundPreserves(step.value, fr, st);
    }
  }

  lemma {:induction false} EvalRightPreserves(op: BinOp, a: int, e: Expr, ty: Type, fr: Frame, st: Store)
    requires WellTyped(e, fr) && Safe(e) && FoldAs(e, ty).Folded? && IsWord(a)
    ensures EvalRight(op, a, FoldAs(e, ty).e, st) == EvalRight(op, a, e, st)
  {
    FoldAsPreserves(e, ty, fr, st);
  }

  /** A folded statement does what the statement does, for every amount of fuel. */
  lemma {:induction false} StmPreserved(fuel: nat, s: Stm, fr: Frame, pl: Place, st: Store)
    requires WellTypedStm(s, fr, pl) && SafeStm(s) && FoldStm(s).Rewritten?
    ensures Exec(fuel, FoldStm(s).s, st) == Exec(fuel, s, st)
    decreases fuel, s, 2
  {
    hide Fold, FoldAs, FoldBound, Eval, EvalRight, EvalStep, FoldStep, Safe, WellTyped, Converts, BinaryAccepts;
    match s {
      case VarDecl(_, ty, init) => if init.Some? { FoldAsPreserves(init.value, ty, fr, st); }
      case Assign(_, ty, e) => FoldAsPreserves(e, ty, fr, st);
      case OpAssign(slot, ty, op, e) => EvalRightPreserves(op, Fetch(st, slot), e, ty, fr, st);
      case Block(ss) => BlockPreserved(fuel, ss, fr, pl, st);
      case If(c, thn, els) => IfPreserved(fuel, s, fr, pl, st);
      case While(_, _) => WhilePreserved(fuel, s, fr, pl, st);
      case For(_, _, _, _, _, _) => ForPreserved(fuel, s, fr, pl, st);
      case Return(e, ty) => if e.Some? { FoldAsPreserves(e.value, ty, fr, st); }
      case _ =>
    }
  }

  lemma {:induction false} BlockPreserved(fuel: nat, ss: seq<Stm>, fr: Frame, pl: Place, st: Store)
    requires WellTypedBlock(ss, fr, pl) && SafeBlock(ss) && FoldBlock(ss).RewrittenAll?
    ensures ExecBlock(fuel, FoldBlock(ss).ss, st) == ExecBlock(fuel, ss, st)
    decreases fuel, ss, 0
  {
    hide Exec, FoldStm, SafeStm, WellTypedStm;
    if ss != [] {
      StmPreserved(fuel, ss[0], fr, pl, st);
      var f := FoldBlock(ss).ss;
      assert f[0] == FoldStm(ss[0]).s && f[1..] == FoldBlock(ss[1..]).ss;
      if Exec(fuel, ss[0], st).Next? {
        BlockPreserved(fuel, ss[1..], fr, pl, Exec(fuel, ss[0], st).st);
      }
    }
  }

  lemma {:induction false} IfPreserved(fuel: nat, s: Stm, fr: Frame, pl: Place, st: Store)
    requires s.If? && WellTypedStm(s, fr, pl) && SafeStm(s) && FoldStm(s).Rewritten?
    ensures Exec(fuel, FoldStm(s).s, st) == Exec(fuel, s, st)
    decreases fuel, s, 1
  {
    hide Fold, Eval, Safe, WellTyped, SafeBlock, WellTypedBlock, ExecBlock, FoldBlock;
    FoldPreserves(s.cond, fr, st);
    if Eval(s.cond, st).Ok? {
      var (w, st1) := Eval(s.cond, st).value;
      if w != 0 {
        BlockPreserved(fuel, s.thn, fr, pl, st1);
      } else if s.els.Some? {
        StmPreserved(fuel, s.els.value, fr, pl, st1);
      }
    }
  }

  lemma {:induction false} WhilePreserved(fuel: nat, s: Stm, fr: Frame, pl: Place, st: Store)
    requires s.While? && WellTypedStm(s, fr, pl) && SafeStm(s) && FoldStm(s).Rewritten?
    ensures Exec(fuel, FoldStm(s).s, st) == Exec(fuel, s, st)
    decreases fuel, s, 1
  {
    hide Fold, Eval, Safe, WellTyped, SafeBlock, WellTypedBlock, ExecBlock, FoldBlock;
    FoldPreserves(s.cond, fr, st);
    if fuel > 0 && Eval(s.cond, st).Ok? {
      var (w, st1) := Eval(s.cond, st).value;
      if w != 0 {
        BlockPreserved(fuel, s.body, fr, pl.(inLoop := true), st1);
        var r := ExecBlock(fuel, s.body, st1);
        if r.Next? || r.Continued? {
          WhilePreserved(fuel - 1, s, fr, pl, r.st);
        }
      }
    }
  }

  lemma {:induction false} ForPreserved(fuel: nat, s: Stm, fr: Frame, pl: Place, st: Store)
    requires s.For? && WellTypedStm(s, fr, pl) && SafeStm(s) && FoldStm(s).Rewritten?
    ensures Exec(fuel, FoldStm(s).s, st) == Exec(fuel, s, st)
    decreases fuel, s, 1
  {
    hide FoldBound, FoldStep, Eval, EvalStep, Safe, WellTyped, SafeBlock, WellTypedBlock, ExecRange, FoldBlock,
      Converts;
    var f := FoldStm(s).s;
    StepPreserves(s.step, fr, st);
    if EvalStep(s.step, st).Ok? {
      var (d, st1) := EvalStep(s.step, st).value;
      FoldBoundPreserves(s.end, fr, st1);
      if Eval(s.end, st1).Ok? {
        var (end, st2) := Eval(s.end, st1).value;
        FoldBoundPreserves(s.start, fr, st2);
        if Eval(s.start, st2).Ok? {
          var (cur, st3) := Eval(s.start, st2).value;
          RangePreserved(fuel, s, fr, pl, cur, end, d, st3);
        }
      }
    }
  }

  lemma {:induction false} RangePreserved(fuel: nat, s: Stm, fr: Frame, pl: Place, cur: int, end: int, d: int,
          st: Store)
    requires s.For? && WellTypedBlock(s.body, fr, pl.(inLoop := true)) && SafeBlock(s.body) && FoldStm(s).Rewritten?
    ensures ExecRange(fuel, FoldStm(s).s, cur, end, d, st) == ExecRange(fuel, s, cur, end, d, st)
    decreases fuel, s, 0
  {
    hide FoldBound, FoldStep, InRange, SafeBlock, WellTypedBlock, ExecBlock, FoldBlock;
    if fuel > 0 && InRange(s.ty, d, cur, end) {
      BlockPreserved(fuel, s.body, fr, pl.(inLoop := true), st[s.slot := cur]);
      var r := ExecBlock(fuel, s.body, st[s.slot := cur]);
      if r.Next? || r.Continued? {
        RangePreserved(fuel - 1, s, fr, pl, ToWord(cur + d), end, d, r.st);
      }
    }
  }

  // ---------------------------------------------------------------- a second pass

  lemma {:induction false} FoldAsIdempotent(e: Expr, ty: Type)
    requires FoldAs(e, ty).Folded?
    ensures FoldAs(FoldAs(e, ty).e, ty) == FoldAs(e, ty)
  {
    FoldIdempotent(e);
  }

  lemma {:induction false} FoldBoundIdempotent(e: Expr)
    requires FoldBound(e).Folded?
    ensures FoldBound(FoldBound(e).e) == FoldBound(e)
  {
    FoldAsIdempotent(e, TInt);
  }

  /** A second pass over a folded statement changes nothing. */
  lemma {:induction false} StmIdempotent(s: Stm)
    requires FoldStm(s).Rewritten?
    ensures FoldStm(FoldStm(s).s) == FoldStm(s)
    decreases s, 1
  {
    hide Fold, FoldAs, FoldBound;
    match s
    case VarDecl(_, ty, init) => if init.Some? { FoldAsIdempotent(init.value, ty); }
    case Assign(_, ty, e) => FoldAsIdempotent(e, ty);
    case OpAssign(_, ty, _, e) => FoldAsIdempotent(e, ty);
    case Block(ss) => BlockIdempotent(ss);
    case If(c, thn, els) =>
      FoldIdempotent(c);
      BlockIdempotent(thn);
      if els.Some? { StmIdempotent(els.value); }
    case While(c, ss) =>
      FoldIdempotent(c);
      BlockIdempotent(ss);
    case For(_, _, a, b, step, ss) =>
      FoldBoundIdempotent(a);
      FoldBoundIdempotent(b);
      if step.Some? { FoldBoundIdempotent(step.value); }
      BlockIdempotent(ss);
    case Return(e, ty) => if e.Some? { FoldAsIdempotent(e.value, ty); }
    case _ =>
  }

  lemma {:induction false} BlockIdempotent(ss: seq<Stm>)
    requires FoldBlock(ss).RewrittenAll?
    ensures FoldBlock(FoldBlock(ss).ss) == FoldBlock(ss)
    decreases ss, 0
  {
    hide FoldStm;
    if ss != [] {
      StmIdempotent(ss[0]);
      BlockIdempotent(ss[1..]);
      var f := FoldBlock(ss).ss;
      assert f[0] == FoldStm(ss[0]).s && f[1..] == FoldBlock(ss[1..]).ss;
    }
  }

  // ---------------------------------------------------------------- range bounds

  /** Every range bound is a constant. */
  predicate BoundsConstant(s: Stm)
    decreases s, 1
  {
    match s
    case Block(ss) => BlockBoundsConstant(ss)
    case If(_, thn, els) => BlockBoundsConstant(thn) && (els.Some? ==> BoundsConstant(els.value))
    case While(_, ss) => BlockBoundsConstant(ss)
    case For(_, _, a, b, step, ss) =>
      FoldsAway(a) && FoldsAway(b) && (step.Some? ==> FoldsAway(step.value)) && BlockBoundsConstant(ss)
    case _ => true
  }

  predicate BlockBoundsConstant(ss: seq<Stm>)
    decreases ss, 0
  {
    ss == [] || (BoundsConstant(ss[0]) && BlockBoundsConstant(ss[1..]))
  }

  /** Every range bound is a constant expression, said without the folder. */
  predicate BoundsClosed(s: Stm)
    decreases s, 1
  {
    match s
    case Block(ss) => BlockBoundsClosed(ss)
    case If(_, thn, els) => BlockBoundsClosed(thn) && (els.Some? ==> BoundsClosed(els.value))
    case While(_, ss) => BlockBoundsClosed(ss)
    case For(_, _, a, b, step, ss) =>
      Closed(a) && Closed(b) && (step.Some? ==> Closed(step.value)) && BlockBoundsClosed(ss)
    case _ => true
  }

  predicate BlockBoundsClosed(ss: seq<Stm>)
    decreases ss, 0
  {
    ss == [] || (BoundsClosed(ss[0]) && BlockBoundsClosed(ss[1..]))
  }

  /** No range bound has a variable. */
  predicate BoundsGround(s: Stm)
    decreases s, 1
  {
    match s
    case Block(ss) => BlockBoundsGround(ss)
    case If(_, thn, els) => BlockBoundsGround(thn) && (els.Some? ==> BoundsGround(els.value))
    case While(_, ss) => BlockBoundsGround(ss)
    case For(_, _, a, b, step, ss) =>
      Ground(a) && Ground(b) && (step.Some? ==> Ground(step.value)) && BlockBoundsGround(ss)
    case _ => true
  }

  predicate BlockBoundsGround(ss: seq<Stm>)
    decreases ss, 0
  {
    ss == [] || (BoundsGround(ss[0]) && BlockBoundsGround(ss[1..]))
  }

  lemma {:induction false} FoldAsFails(e: Expr, ty: Type, fr: Frame)
    requires WellTyped(e, fr)
    ensures FoldAs(e, ty).Failed? ==> OtherFailure(FoldAs(e, ty).why)
  {
    FoldTyped(e, fr);
  }

  lemma {:induction false} BoundFails(e: Expr, fr: Frame)
    requires WellTyped(e, fr) && IsNumeric(TypeOf(e))
    ensures (FoldBound(e).Failed? && OtherFailure(FoldBound(e).why)) || (FoldBound(e).Folded? <==> FoldsAway(e))
    ensures Safe(e) ==> (FoldBound(e).Failed? && OtherFailure(FoldBound(e).why)) || (FoldsAway(e) <==> Closed(e))
    ensures Ground(e) ==> (FoldBound(e).Failed? && OtherFailure(FoldBound(e).why)) || FoldsAway(e)
  {
    hide Closed, Safe, Ground, Fold;
    FoldTyped(e, fr);
    if Safe(e) && Fold(e).Folded? {
      ClosedExact(e, fr);
    }
    if Ground(e) {
      GroundFolds(e, fr);
    }
  }

  predicate OtherwiseFails(r: StmResult) {
    r.StmFailed? && OtherFailure(r.why)
  }

  /** Unless an expression has no constant value to fold to, folding a well-typed statement succeeds exactly
      when all its range bounds are constant; otherwise it stops with an exception. In the folder's safe domain,
      constant means closed; bounds without variables are constant always. */
  lemma {:induction false} RangeBoundsExact(s: Stm, fr: Frame, pl: Place)
    requires WellTypedStm(s, fr, pl)
    ensures OtherwiseFails(FoldStm(s)) || (FoldStm(s).Rewritten? <==> BoundsConstant(s))
    ensures SafeStm(s) ==> OtherwiseFails(FoldStm(s)) || (FoldStm(s).Rewritten? <==> BoundsClosed(s))
    ensures BoundsGround(s) ==> OtherwiseFails(FoldStm(s)) || FoldStm(s).Rewritten?
    decreases s, 1
  {
    hide Fold, FoldAs, FoldBound, FoldsAway, Closed, Safe, Ground, WellTyped, OtherFailure;
    match s
    case VarDecl(_, ty, init) => if init.Some? { FoldAsFails(init.value, ty, fr); }
    case Assign(_, ty, e) => FoldAsFails(e, ty, fr);
    case OpAssign(_, ty, _, e) => FoldAsFails(e, ty, fr);
    case Block(ss) => BlockBoundsExact(ss, fr, pl);
    case If(c, thn, els) =>
      ConditionFolds(c, fr);
      BlockBoundsExact(thn, fr, pl);
      if els.Some? { RangeBoundsExact(els.value, fr, pl); }
    case While(c, ss) =>
      ConditionFolds(c, fr);
      BlockBoundsExact(ss, fr, pl.(inLoop := true));
    case For(_, _, a, b, step, ss) =>
      BoundFails(a, fr);
      BoundFails(b, fr);
      if step.Some? { BoundFails(step.value, fr); }
      BlockBoundsExact(ss, fr, pl.(inLoop := true));
    case Return(e, ty) => if e.Some? { FoldAsFails(e.value, ty, fr); }
    case _ =>
  }

  lemma {:induction false} ConditionFolds(c: Expr, fr: Frame)
    requires WellTyped(c, fr)
    ensures Fold(c).Failed? ==> OtherFailure(Fold(c).why)
  {
    FoldTyped(c, fr);
  }

  lemma {:induction false} BlockBoundsExact(ss: seq<Stm>, fr: Frame, pl: Place)
    requires WellTypedBlock(ss, fr, pl)
    ensures var other := FoldBlock(ss).BlockFailed? && OtherFailure(FoldBlock(ss).why);
      && (other || (FoldBlock(ss).RewrittenAll? <==> BlockBoundsConstant(ss)))
      && (SafeBlock(ss) ==> other || (FoldBlock(ss).RewrittenAll? <==> BlockBoundsClosed(ss)))
      && (BlockBoundsGround(ss) ==> other || FoldBlock(ss).RewrittenAll?)
    decreases ss, 0
  {
    hide FoldStm, BoundsConstant, BoundsClosed, BoundsGround, WellTypedStm, SafeStm, OtherFailure;
    if ss != [] {
      RangeBoundsExact(ss[0], fr, pl);
      BlockBoundsExact(ss[1..], fr, pl);
    }
  }

  // ---------------------------------------------------------------- what a folded statement looks like

  /** An expression stored with a type: reduced, and a literal is one of that type. */
  predicate ReducedAs(e: Expr, ty: Type) {
    Reduced(e) && (IsLiteral(e) ==> TypeOf(e) == ty)
  }

  /** Every expression of the statement is reduced, and range bounds are ints. */
  predicate StmReduced(s: Stm)
    decreases s, 1
  {
    match s
    case VarDecl(_, ty, init) => init.Some? ==> ReducedAs(init.value, ty)
    case Assign(_, ty, e) => ReducedAs(e, ty)
    case OpAssign(_, ty, _, e) => ReducedAs(e, ty)
    case Block(ss) => BlockReduced(ss)
    case If(c, thn, els) => Reduced(c) && BlockReduced(thn) && (els.Some? ==> StmReduced(els.value))
    case While(c, ss) => Reduced(c) && BlockReduced(ss)
    case For(_, _, a, b, step, ss) => a.IntLit? && b.IntLit? && (step.Some? ==> step.value.IntLit?) && BlockReduced(ss)
    case Return(e, ty) => e.Some? ==> ReducedAs(e.value, ty)
    case _ => true
  }

  predicate BlockReduced(ss: seq<Stm>)
    decreases ss, 0
  {
    ss == [] || (StmReduced(ss[0]) && BlockReduced(ss[1..]))
  }

  lemma {:induction false} FoldAsReduces(e: Expr, ty: Type, fr: Frame)
    requires WellTyped(e, fr) && Convertible(TypeOf(e), ty) && FoldAs(e, ty).Folded?
    ensures ReducedAs(FoldAs(e, ty).e, ty)
  {
    hide Fold;
    FoldTyped(e, fr);
    FoldReduces(e);
    ConstantIsLiteral(e);
    if FoldsAway(e) {
      CastLiteral(ty, Fold(e).e);
    }
  }

  lemma {:induction false} FoldBoundReduces(e: Expr, fr: Frame)
    requires WellTyped(e, fr) && IsNumeric(TypeOf(e)) && FoldBound(e).Folded?
    ensures FoldBound(e).e.IntLit?
  {
    hide Fold;
    FoldTyped(e, fr);
    CastLiteral(TInt, Fold(e).e);
  }

  /** Folding reaches every expression of a statement. */
  lemma {:induction false} StmReduces(s: Stm, fr: Frame, pl: Place)
    requires WellTypedStm(s, fr, pl) && FoldStm(s).Rewritten?
    ensures StmReduced(FoldStm(s).s)
    decreases s, 1
  {
    hide Fold, FoldAs, FoldBound, WellTyped, ReducedAs, Reduced, BinaryAccepts;
    match s
    case VarDecl(_, ty, init) => if init.Some? { FoldAsReduces(init.value, ty, fr); }
    case Assign(_, ty, e) => FoldAsReduces(e, ty, fr);
    case OpAssign(_, ty, op, e) =>
      OperandConvertible(op, ty, TypeOf(e));
      FoldAsReduces(e, ty, fr);
    case Block(ss) => BlockReduces(ss, fr, pl);
    case If(c, thn, els) =>
      FoldReduces(c);
      BlockReduces(thn, fr, pl);
      if els.Some? { StmReduces(els.value, fr, pl); }
    case While(c, ss) =>
      FoldReduces(c);
      BlockReduces(ss, fr, pl.(inLoop := true));
    case For(_, _, a, b, step, ss) =>
      FoldBoundReduces(a, fr);
      FoldBoundReduces(b, fr);
      if step.Some? { FoldBoundReduces(step.value, fr); }
      BlockReduces(ss, fr, pl.(inLoop := true));
    case Return(e, ty) => if e.Some? { FoldAsReduces(e.value, ty, fr); }
    case _ =>
  }

  lemma {:induction false} OperandConvertible(op: BinOp, a: Type, b: Type)
    requires BinaryAccepts(op, a, b)
    ensures Convertible(b, a)
  {
  }

  lemma {:induction false} BlockReduces(ss: seq<Stm>, fr: Frame, pl: Place)
    requires WellTypedBlock(ss, fr, pl) && FoldBlock(ss).RewrittenAll?
    ensures BlockReduced(FoldBlock(ss).ss)
    decreases ss, 0
  {
    hide FoldStm, WellTypedStm, StmReduced;
    if ss != [] {
      StmReduces(ss[0], fr, pl);
      BlockReduces(ss[1..], fr, pl);
      var f := FoldBlock(ss).ss;
      assert f[0] == FoldStm(ss[0]).s && f[1..] == FoldBlock(ss[1..]).ss;
    }
  }

  // ---------------------------------------------------------------- the first failure

  /** The results for the expressions of a statement, in the order in which they are written. */
  function Visits(s: Stm): seq<FoldResult>
    decreases s, 1
  {
    match s
    case VarDecl(_, ty, init) => if init.Some? then [FoldAs(init.value, ty)] else []
    case Assign(_, ty, e) => [FoldAs(e, ty)]
    case OpAssign(_, ty, _, e) => [FoldAs(e, ty)]
    case Block(ss) => BlockVisits(ss)
    case If(c, thn, els) => [Fold(c)] + (BlockVisits(thn) + if els.Some? then Visits(els.value) else [])
    case While(c, ss) => [Fold(c)] + BlockVisits(ss)
    case For(_, _, a, b, step, ss) =>
      [FoldBound(a)] + ([FoldBound(b)] + ((if step.Some? then [FoldBound(step.value)] else []) + BlockVisits(ss)))
    case Return(e, ty) => if e.Some? then [FoldAs(e.value, ty)] else []
    case _ => []
  }

  function BlockVisits(ss: seq<Stm>): seq<FoldResult>
    decreases ss, 0
  {
    if ss == [] then [] else Visits(ss[0]) + BlockVisits(ss[1..])
  }

  function FirstFailure(rs: seq<FoldResult>): Option<Failure> {
    if rs == [] then None else if rs[0].Failed? then Some(rs[0].why) else FirstFailure(rs[1..])
  }

  lemma {:induction false} FirstOfBoth(rs: seq<FoldResult>, more: seq<FoldResult>)
    ensures FirstFailure(rs + more) == if FirstFailure(rs).Some? then FirstFailure(rs) else FirstFailure(more)
    decreases |rs|
  {
    if rs == [] {
      assert rs + more == more;
    } else {
      assert (rs + more)[1..] == rs[1..] + more;
      FirstOfBoth(rs[1..], more);
    }
  }

  lemma {:induction false} FirstOfOne(r: FoldResult)
    ensures FirstFailure([r]) == if r.Failed? then Some(r.why) else None
  {
    assert [r][1..] == [];
  }

  function FailureOf(r: StmResult): Option<Failure> {
    if r.StmFailed? then Some(r.why) else None
  }

  /** Folding a statement fails exactly when the folding of one of its expressions does, and reports the first of
      them. */
  lemma {:induction false} FirstFails(s: Stm)
    ensures FailureOf(FoldStm(s)) == FirstFailure(Visits(s))
    decreases s, 1
  {
    hide Fold, FoldAs, FoldBound, FirstFailure;
    assert FirstFailure([]) == None by { NoFailure(); }
    match s
    case VarDecl(_, ty, init) => if init.Some? { FirstOfOne(FoldAs(init.value, ty)); }
    case Assign(_, ty, e) => FirstOfOne(FoldAs(e, ty));
    case OpAssign(_, ty, _, e) => FirstOfOne(FoldAs(e, ty));
    case Block(ss) => BlockFirstFails(ss);
    case If(c, thn, els) =>
      var rest := if els.Some? then Visits(els.value) else [];
      FirstOfBoth([Fold(c)], BlockVisits(thn) + rest);
      FirstOfOne(Fold(c));
      FirstOfBoth(BlockVisits(thn), rest);
      BlockFirstFails(thn);
      if els.Some? { FirstFails(els.value); }
    case While(c, ss) =>
      FirstOfBoth([Fold(c)], BlockVisits(ss));
      FirstOfOne(Fold(c));
      BlockFirstFails(ss);
    case For(_, _, a, b, step, ss) => BoundsFirstFail(s);
    case Return(e, ty) => if e.Some? { FirstOfOne(FoldAs(e.value, ty)); }
    case _ =>
  }

  lemma {:induction false} NoFailure()
    ensures FirstFailure([]) == None
  {
  }

  lemma {:induction false} BoundsFirstFail(s: Stm)
    requires s.For?
    ensures FailureOf(FoldStm(s)) == FirstFailure(Visits(s))
    decreases s, 0
  {
    hide Fold, FoldAs, FoldBound, FirstFailure;
    var ss := s.body;
    var step := if s.step.Some? then [FoldBound(s.step.value)] else [];
    var rest := step + BlockVisits(ss);
    NoFailure();
    FirstOfBoth([FoldBound(s.start)], [FoldBound(s.end)] + rest);
    FirstOfOne(FoldBound(s.start));
    FirstOfBoth([FoldBound(s.end)], rest);
    FirstOfOne(FoldBound(s.end));
    FirstOfBoth(step, BlockVisits(ss));
    if s.step.Some? {
      FirstOfOne(FoldBound(s.step.value));
    }
    BlockFirstFails(ss);
  }

  lemma {:induction false} BlockFirstFails(ss: seq<Stm>)
    ensures FirstFailure(BlockVisits(ss)) == if FoldBlock(ss).BlockFailed? then Some(FoldBlock(ss).why) else None
    decreases ss, 0
  {
    hide FoldStm, Visits;
    if ss != [] {
      FirstFails(ss[0]);
      FirstOfBoth(Visits(ss[0]), BlockVisits(ss[1..]));
      BlockFirstFails(ss[1..]);
    }
  }

  /** `for (int i : 3 .. 0 : -1) {}` folds to a loop with the literal step -1. */
  lemma {:induction false} NegativeStepExample(i: int, fr: Frame)
    requires SlotOk(i, fr)
    ensures var s := For(i, TInt, IntLit(3), IntLit(0), Some(Unary(UMinus, IntLit(1))), []);
      WellTypedStm(s, fr, Place(false, false)) && BoundsClosed(s)
        && FoldStm(s) == Rewritten(For(i, TInt, IntLit(3), IntLit(0), Some(IntLit(-1)), []))
  {
    var step := Unary(UMinus, IntLit(1));
    assert Fold(IntLit(3)) == Folded(IntLit(3), true) && Fold(IntLit(0)) == Folded(IntLit(0), true);
    assert Fold(IntLit(1)) == Folded(IntLit(1), true);
    assert Fold(step) == Folded(IntLit(-1), true);
    assert WellTyped(IntLit(1), fr) && WellTyped(step, fr) && Closed(IntLit(1)) && Closed(step);
  }

  /** `for (int i : 0 .. n) {}` with a local variable n: well typed, and folding ends in the exception. */
  lemma {:induction false} VariableBoundExample(i: int, n: int, fr: Frame)
    requires SlotOk(i, fr) && SlotOk(n, fr)
    ensures var s := For(i, TInt, IntLit(0), Local(n, TInt), None, []);
      WellTypedStm(s, fr, Place(false, false)) && FoldStm(s) == StmFailed(InvalidFold) && !BoundsConstant(s)
  {
    assert Fold(IntLit(0)) == Folded(IntLit(0), true) && Fold(Local(n, TInt)) == Folded(Local(n, TInt), false);
    assert WellTyped(IntLit(0), fr) && WellTyped(Local(n, TInt), fr);
  }
}
