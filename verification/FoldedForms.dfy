/** Which expressions the folder turns into literals, and what it leaves of the others, said without the folder:
    by the variables in an expression and by what its conditions evaluate to. */
module FoldedForms {
  import opened Isa
  import opened Source
  import opened Folder
  import opened FolderLaws

  // ---------------------------------------------------------------- without variables

  /** No variable anywhere. */
  predicate Ground(e: Expr) {
    match e
    case Local(_, _) => false
    case IncDec(_, _, _, _) => false
    case Unary(_, x) => Ground(x)
    case Binary(_, l, r) => Ground(l) && Ground(r)
    case Ternary(c, t, f) => Ground(c) && Ground(t) && Ground(f)
    case Cast(_, x) => Ground(x)
    case _ => true
  }

  predicate OtherFailure(w: Failure) {
    w == DivisionError || w == NotDefined
  }

  /** An expression without variables folds to a literal, unless it has no value that could be written down. */
  lemma {:induction false} GroundFolds(e: Expr, fr: Frame)
    requires WellTyped(e, fr) && Ground(e)
    ensures FoldsAway(e) || (Fold(e).Failed? && OtherFailure(Fold(e).why))
  {
    FoldTyped(e, fr);
    match e
    case Unary(_, x) => GroundFolds(x, fr);
    case Binary(_, l, r) =>
      GroundFolds(l, fr);
      GroundFolds(r, fr);
    case Ternary(c, t, f) =>
      GroundFolds(c, fr);
      GroundFolds(t, fr);
      GroundFolds(f, fr);
    case Cast(_, x) => GroundFolds(x, fr);
    case _ =>
  }

  // ---------------------------------------------------------------- constants

  /** A condition that needs no variable has the given answer. */
  predicate Answers(e: Expr, b: bool) {
    Eval(e, map[]) == Outcome.Ok((Flag(b), map[]))
  }

  /** Constant expressions: no variable in any part that counts. Of a ternary with a constant condition only the
      selected branch counts, of a logical operator whose left side is constant and decides only the left side, of
      any other logical operator, as the code has it, only the right side. */
  predicate Closed(e: Expr) {
    match e
    case Local(_, _) => false
    case IncDec(_, _, _, _) => false
    case Unary(_, x) => Closed(x)
    case Binary(op, l, r) =>
      if IsLogic(op) then (Closed(l) && Answers(l, op == LogicOr)) || Closed(r) else Closed(l) && Closed(r)
    case Ternary(c, t, f) => Closed(c) && if Answers(c, true) then Closed(t) else Answers(c, false) && Closed(f)
    case Cast(_, x) => Closed(x)
    case _ => true
  }

  /** The type of the literal: that of the expression, but a ternary has that of its selected branch, and a plus
      sign changes nothing. */
  function LiteralType(e: Expr): Type {
    match e
    case Unary(UPlus, x) => LiteralType(x)
    case Ternary(c, t, f) => if Answers(c, true) then LiteralType(t) else LiteralType(f)
    case _ => TypeOf(e)
  }

  lemma {:induction false} AnswerOf(c: Expr, fr: Frame)
    requires WellTyped(c, fr) && Safe(c) && FoldsAway(c) && TypeOf(c) == TBool
    ensures Fold(c).e.BoolLit? && forall b :: Answers(c, b) <==> Fold(c).e.b == b
  {
    hide Safe;
    FoldTyped(c, fr);
    FoldPreserves(c, fr, map[]);
  }

  /** A safe expression that folds becomes a literal exactly when it is constant. */
  lemma {:induction false} ClosedExact(e: Expr, fr: Frame)
    requires WellTyped(e, fr) && Safe(e) && Fold(e).Folded?
    ensures FoldsAway(e) <==> Closed(e)
    ensures FoldsAway(e) ==> TypeOf(Fold(e).e) == LiteralType(e)
    decreases e, 1
  {
    hide FoldOperator, SafeOperator, FoldUnary, ConvertLiteral, Answers;
    match e
    case Unary(op, x) =>
      FoldTyped(x, fr);
      ClosedExact(x, fr);
      if FoldsAway(x) {
        UnaryLiteral(op, Fold(x).e, fr);
      }
    case Binary(op, l, r) => BinaryClosed(e, fr);
    case Ternary(c, t, f) =>
      FoldTyped(c, fr);
      ClosedExact(c, fr);
      if FoldsAway(c) {
        AnswerOf(c, fr);
        if Fold(c).e.b {
          ClosedExact(t, fr);
        } else {
          ClosedExact(f, fr);
        }
      }
    case Cast(ty, x) =>
      FoldTyped(x, fr);
      ClosedExact(x, fr);
      if FoldsAway(x) {
        CastLiteral(ty, Fold(x).e);
      }
    case _ =>
  }

  lemma {:induction false} UnaryLiteral(op: UnOp, e: Expr, fr: Frame)
    requires IsLiteral(e) && WellTyped(e, fr) && (TypeOf(e) == TBool <==> op == LogicNot) && FoldUnary(op, e).Folded?
    ensures TypeOf(FoldUnary(op, e).e) == if op == UPlus then TypeOf(e) else if op == LogicNot then TBool else TInt
  {
  }

  lemma {:induction false} CastLiteral(ty: Type, e: Expr)
    requires IsLiteral(e) && (TypeOf(e) == TBool <==> ty == TBool) && ConvertLiteral(ty, e).Folded?
    ensures TypeOf(ConvertLiteral(ty, e).e) == ty
  {
  }

  lemma {:induction false} BinaryClosed(e: Expr, fr: Frame)
    requires e.Binary? && WellTyped(e, fr) && Safe(e) && Fold(e).Folded?
    ensures FoldsAway(e) <==> Closed(e)
    ensures FoldsAway(e) ==> TypeOf(Fold(e).e) == TypeOf(e)
    decreases e, 0
  {
    hide FoldOperator, SafeOperator, Answers;
    var op, l, r := e.op, e.l, e.r;
    FoldTyped(l, fr);
    ClosedExact(l, fr);
    if IsLogic(op) {
      if FoldsAway(l) {
        AnswerOf(l, fr);
      }
      if !FoldsTo(l, op == LogicOr) {
        ClosedExact(r, fr);
      }
    } else if FoldsAway(l) {
      FoldTyped(r, fr);
      ClosedExact(r, fr);
      if FoldsAway(r) {
        FoldOperatorTyped(op, Fold(l).e, Fold(r).e, fr);
      }
    }
  }

  /** Constant expressions, all the way: a safe one becomes the literal of its value, whatever the variables hold,
      unless its folding is refused; it is refused when evaluation fails. Others never become literals. */
  lemma {:induction false} ConstantExact(e: Expr, fr: Frame)
    requires WellTyped(e, fr) && Safe(e)
    ensures Closed(e) ==>
      match Fold(e)
      case Folded(e', constant) =>
        constant && IsLiteral(e') && TypeOf(e') == LiteralType(e)
          && forall st :: Eval(e, st) == Outcome.Ok((LiteralWord(e'), st))
      case Failed(w) => OtherFailure(w)
    ensures !Closed(e) ==> !FoldsAway(e)
    ensures Closed(e) && Eval(e, map[]).Err? ==> Fold(e).Failed?
  {
    hide Safe, Closed, LiteralType, LiteralWord, WellTyped;
    FoldTyped(e, fr);
    if Fold(e).Folded? {
      ClosedExact(e, fr);
      if FoldsAway(e) {
        forall st
          ensures Eval(e, st) == Outcome.Ok((LiteralWord(Fold(e).e), st))
        {
          FoldPreserves(e, fr, st);
          LiteralValue(Fold(e).e, st);
        }
      }
    }
  }

  // ---------------------------------------------------------------- what is left of the others

  /** Nothing that the folder looks at could be folded further: no operator has only literals to work on, no
      condition and no deciding left side is a literal. The folder does not look at the branches of a ternary that
      stays, nor behind the left side of an operator that is no literal. */
  predicate Reduced(e: Expr) {
    match e
    case Unary(_, x) => !IsLiteral(x) && Reduced(x)
    case Cast(_, x) => !IsLiteral(x) && Reduced(x)
    case Ternary(c, _, _) => !IsLiteral(c) && Reduced(c)
    case Binary(op, l, r) =>
      && Reduced(l)
      && (if IsLogic(op) then !IsLiteral(r) && Reduced(r) && l != BoolLit(op == LogicOr)
          else IsLiteral(l) ==> !IsLiteral(r) && Reduced(r))
    case _ => true
  }

  lemma {:induction false} FoldReduces(e: Expr)
    requires Fold(e).Folded?
    ensures Reduced(Fold(e).e)
  {
    hide FoldOperator, FoldUnary, ConvertLiteral;
    ConstantIsLiteral(e);
    match e
    case Unary(_, x) =>
      FoldReduces(x);
      ConstantIsLiteral(x);
    case Binary(op, l, r) =>
      FoldReduces(l);
      ConstantIsLiteral(l);
      if Fold(r).Folded? {
        FoldReduces(r);
        ConstantIsLiteral(r);
      }
    case Ternary(c, t, f) =>
      FoldReduces(c);
      ConstantIsLiteral(c);
      if FoldsAway(c) {
        if Fold(c).e.b { FoldReduces(t); } else { FoldReduces(f); }
      }
    case Cast(_, x) =>
      FoldReduces(x);
      ConstantIsLiteral(x);
    case _ =>
  }

  /** The folder leaves an expression as it is exactly when it is reduced. */
  lemma {:induction false} FixedExact(e: Expr, fr: Frame)
    requires WellTyped(e, fr)
    ensures Fold(e) == Folded(e, IsLiteral(e)) <==> Reduced(e)
  {
    if Fold(e) == Folded(e, IsLiteral(e)) {
      FoldReduces(e);
    }
    if Reduced(e) {
      ReducedStays(e, fr);
    }
  }

  lemma {:induction false} ReducedStays(e: Expr, fr: Frame)
    requires WellTyped(e, fr) && Reduced(e)
    ensures Fold(e) == Folded(e, IsLiteral(e))
  {
    match e
    case Unary(_, x) => ReducedStays(x, fr);
    case Binary(op, l, r) =>
      ReducedStays(l, fr);
      if IsLogic(op) || IsLiteral(l) {
        ReducedStays(r, fr);
      }
    case Ternary(c, _, _) => ReducedStays(c, fr);
    case Cast(_, x) => ReducedStays(x, fr);
    case _ =>
  }
}
