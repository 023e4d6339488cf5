/** What folding keeps: it never crashes on well-typed expressions, its flag says whether the result is a
    literal, a second pass changes nothing, and in its safe domain the value and the effects stay. */
module FolderLaws {
  import opened Words
  import opened Isa
  import opened Source
  import opened FloatDivision
  import opened Folder

  /** foldExpr returns true exactly when it leaves a literal. */
  lemma {:induction false} ConstantIsLiteral(e: Expr)
    requires Fold(e).Folded?
    ensures Fold(e).constant <==> IsLiteral(Fold(e).e)
  {
    if e.Ternary? && Fold(e.cond).Folded? && Fold(e.cond).constant {
      if Fold(e.cond).e.b {
        ConstantIsLiteral(e.thn);
      } else {
        ConstantIsLiteral(e.els);
      }
    }
  }

  /** A second pass finds nothing to do. */
  lemma {:induction false} FoldIdempotent(e: Expr)
    requires Fold(e).Folded?
    ensures Fold(Fold(e).e) == Fold(e)
  {
    match e
    case Unary(_, x) => FoldIdempotent(x);
    case Binary(op, l, r) =>
      FoldIdempotent(l);
      if Fold(r).Folded? {
        FoldIdempotent(r);
      }
    case Ternary(c, t, f) =>
      FoldIdempotent(c);
      if Fold(c).constant {
        if Fold(c).e.b { FoldIdempotent(t); } else { FoldIdempotent(f); }
      }
    case Cast(_, x) => FoldIdempotent(x);
    case _ =>
  }

  // ---------------------------------------------------------------- types

  lemma {:induction false} ArithmeticGivesInt(op: BinOp, x: int, y: int)
    requires !IsLogic(op) && !IsComparison(op) && op != IntDivide
    ensures FoldArithmetic(op, x, y) != Failed(InvalidFold)
    ensures FoldArithmetic(op, x, y).Folded? ==>
      FoldArithmetic(op, x, y).e.IntLit? && -0x8000_0000 <= FoldArithmetic(op, x, y).e.v < 0x8000_0000
  {
    hide Pow2, Bits, TruncMod, Quotient;
  }

  lemma {:induction false} FoldOperatorTyped(op: BinOp, l: Expr, r: Expr, fr: Frame)
    requires IsLiteral(l) && IsLiteral(r) && WellTyped(l, fr) && WellTyped(r, fr) && !IsLogic(op)
    requires BinaryAccepts(op, TypeOf(l), TypeOf(r))
    ensures FoldOperator(op, l, r) != Failed(InvalidFold)
    ensures FoldOperator(op, l, r).Folded? ==>
      WellTyped(FoldOperator(op, l, r).e, fr) && TypeOf(FoldOperator(op, l, r).e) == TypeOf(Binary(op, l, r))
  {
    hide FloatQuotient, FoldArithmetic, FoldComparison, FloatOperand;
    if !IsComparison(op) && op != IntDivide && IntOf(l).Some? && IntOf(r).Some? {
      ArithmeticGivesInt(op, IntOf(l).value, IntOf(r).value);
    }
  }

  /** Well-typed expressions fold without an exception, to well-typed expressions, bools to bools. */
  lemma {:induction false} FoldTyped(e: Expr, fr: Frame)
    requires WellTyped(e, fr)
    ensures Fold(e) != Failed(InvalidFold)
    ensures Fold(e).Folded? ==> WellTyped(Fold(e).e, fr) && (TypeOf(Fold(e).e) == TBool <==> TypeOf(e) == TBool)
  {
    match e
    case Unary(_, x) => FoldTyped(x, fr);
    case Binary(op, l, r) =>
      FoldTyped(l, fr);
      FoldTyped(r, fr);
      if !IsLogic(op) && Fold(l).Folded? && Fold(l).constant && Fold(r).Folded? && Fold(r).constant {
        FoldOperatorTyped(op, Fold(l).e, Fold(r).e, fr);
      }
    case Ternary(c, t, f) =>
      FoldTyped(c, fr);
      FoldTyped(t, fr);
      FoldTyped(f, fr);
    case Cast(_, x) => FoldTyped(x, fr);
    case _ =>
  }

  // ---------------------------------------------------------------- values

  /** Where the folded value of an operator on two literals is the run-time one. */
  predicate SafeOperator(op: BinOp, l: Expr, r: Expr)
    requires IsLiteral(l) && IsLiteral(r)
  {
    && (op in {Less, LessEqual, Greater, GreaterEqual} && (l.CharLit? || r.CharLit?) ==> SameSign(l, r))
    && (op == IntDivide ==> FloatOperand(r) == 0 || (Abs(FloatOperand(l)) < FULL && SafeDivisor(FloatOperand(l), r)))
  }

  /** A divisor of type char counts as unsigned for the folder and as signed at run time. From 2^31 on both
      quotients are zero as long as the dividend is smaller than the signed divisor. */
  predicate SafeDivisor(x: int, r: Expr)
    requires IsLiteral(r)
  {
    r.CharLit? && LiteralWord(r) >= 0x8000_0000 ==> Abs(x) < W32 - LiteralWord(r)
  }

  predicate SameSign(l: Expr, r: Expr)
    requires IsLiteral(l) && IsLiteral(r)
  {
    LiteralWord(l) < 0x8000_0000 <==> LiteralWord(r) < 0x8000_0000
  }

  lemma {:induction false} ArithmeticValue(op: BinOp, x: int, y: int)
    requires -0x8000_0000 <= x < 0x8000_0000 && -0x8000_0000 <= y < 0x8000_0000
    requires FoldArithmetic(op, x, y).Folded?
    ensures ApplyOp(op, ToWord(x), ToWord(y)) == Outcome.Ok(LiteralWord(FoldArithmetic(op, x, y).e))
  {
    hide Pow2, Bits, FloatQuotient, TruncDiv, TruncMod, Quotient, Signed, ToWord, LiteralWord;
    WordRoundTrip(x);
    WordRoundTrip(y);
    SmallWord(y);
    forall i
      ensures LiteralWord(Int(i).e) == ToWord(i)
    {
      IntWord(i);
    }
  }

  /** The folder's verdict on an operator matches the run-time outcome. */
  predicate Matches(f: FoldResult, r: Outcome<int>) {
    match f
    case Folded(e, _) => IsLiteral(e) && r == Outcome.Ok(LiteralWord(e))
    case Failed(w) => w == DivisionError && r == Outcome.Err(DivisionByZero)
  }

  /** `//` on two literals with a dividend below 2^24 in magnitude: the folder is right exactly when the
      divisor is zero or safe. */
  lemma {:induction false} DivideExact(l: Expr, r: Expr, fr: Frame)
    requires IsLiteral(l) && IsLiteral(r) && WellTyped(l, fr) && WellTyped(r, fr) && IsNumeric(TypeOf(l))
    requires IsNumeric(TypeOf(r))
    requires Abs(FloatOperand(l)) < FULL
    ensures Matches(FoldDivide(FloatOperand(l), FloatOperand(r)), ApplyOp(IntDivide, LiteralWord(l), LiteralWord(r)))
      <==> FloatOperand(r) == 0 || SafeDivisor(FloatOperand(l), r)
  {
    hide FloatQuotient, TruncDiv, ToWord, FloatOperand, LiteralWord;
    var x, y := FloatOperand(l), FloatOperand(r);
    SignedOperand(l);
    SignedOperand(r);
    if y != 0 {
      FloatQuotientAgrees(x, y);
      IntWord(TruncDiv(x, y));
      if r.CharLit? && y >= 0x8000_0000 {
        LargeDivisors(x, y);
        TruncatedInRange(x, y - W32);
        SameWordSameInt(TruncDiv(x, y), TruncDiv(x, y - W32));
      } else {
        TruncatedInRange(x, y);
      }
    }
  }

  lemma {:induction false} SignedOperand(e: Expr)
    requires IsLiteral(e) && (e.CharLit? ==> IsWord(e.c)) && (e.IntLit? ==> -0x8000_0000 <= e.v < 0x8000_0000)
    ensures IsWord(LiteralWord(e))
    ensures e.IntLit? ==> FloatOperand(e) == Signed(LiteralWord(e)) && (LiteralWord(e) == 0 <==> e.v == 0)
    ensures e.CharLit? ==> FloatOperand(e) == LiteralWord(e)
  {
  }

  lemma {:induction false} TruncatedInRange(x: int, y: int)
    requires Abs(x) < FULL && y != 0
    ensures -FULL < TruncDiv(x, y) < FULL
  {
    QuotientSmaller(Abs(x), Abs(y));
  }

  lemma {:induction false} SameWordSameInt(i: int, j: int)
    requires -FULL < i < FULL && -FULL < j < FULL
    ensures ToWord(i) == ToWord(j) <==> i == j
  {
    WordRoundTrip(i);
    WordRoundTrip(j);
  }

  /** Dividing by c and by c - 2^32 gives the same exactly when both quotients are zero. */
  lemma {:induction false} LargeDivisors(x: int, c: int)
    requires Abs(x) < FULL && 0x8000_0000 <= c < W32
    ensures TruncDiv(x, c) == 0
    ensures TruncDiv(x, c - W32) == 0 <==> Abs(x) < W32 - c
  {
    var d := W32 - c;
    QuotientIs(Abs(x), c, 0);
    assert Abs(c - W32) == d;
    if Abs(x) < d {
      QuotientIs(Abs(x), d, 0);
    } else {
      QuotientBounds(Abs(x), d, 1, 0);
    }
  }

  lemma {:induction false} IntWord(i: int)
    ensures LiteralWord(Int(i).e) == ToWord(i)
  {
    SignedRoundTrip(ToWord(i));
  }

  lemma {:induction false} SmallWord(y: int)
    requires -0x8000_0000 <= y < 0x8000_0000
    ensures ToWord(y) == 0 <==> y == 0
    ensures 0 <= y < 32 ==> ToWord(y) % 32 == y
  {
  }

  /** Equality is always right; an order on two numbers is right exactly when both are ints or their words
      have the same sign bit. */
  lemma {:induction false} ComparisonExact(op: BinOp, l: Expr, r: Expr, fr: Frame)
    requires IsLiteral(l) && IsLiteral(r) && WellTyped(l, fr) && WellTyped(r, fr) && IsComparison(op)
    requires BinaryAccepts(op, TypeOf(l), TypeOf(r))
    ensures ApplyOp(op, LiteralWord(l), LiteralWord(r)) == Outcome.Ok(Flag(FoldComparison(op, l, r)))
      <==> op == Equal || op == NotEqual || (l.IntLit? && r.IntLit?) || SameSign(l, r)
  {
    hide ToWord, Signed;
    if l.IntLit? {
      WordRoundTrip(l.v);
    }
    if r.IntLit? {
      WordRoundTrip(r.v);
    }
    assert l.CharLit? ==> LiteralWord(l) == l.c by { CharWord(l); }
    assert r.CharLit? ==> LiteralWord(r) == r.c by { CharWord(r); }
    if op == Equal || op == NotEqual {
    } else if l.IntLit? && r.IntLit? {
    } else {
      UnsignedOrder(LiteralWord(l), LiteralWord(r));
      UnsignedOrder(LiteralWord(r), LiteralWord(l));
    }
  }

  /** Reading two words unsigned orders them as reading them signed does, unless one has the sign bit; then
      it orders them the other way round. */
  lemma {:induction false} UnsignedOrder(a: int, b: int)
    requires IsWord(a) && IsWord(b)
    ensures (a < 0x8000_0000 <==> b < 0x8000_0000) ==> (a < b <==> Signed(a) < Signed(b))
    ensures !(a < 0x8000_0000 <==> b < 0x8000_0000) ==> a != b && (a < b <==> Signed(b) < Signed(a))
  {
  }

  lemma {:induction false} CharWord(e: Expr)
    requires e.CharLit? ==> IsWord(e.c)
    ensures e.CharLit? ==> LiteralWord(e) == e.c
  {
  }

  lemma {:induction false} OperatorValue(op: BinOp, l: Expr, r: Expr, fr: Frame)
    requires IsLiteral(l) && IsLiteral(r) && WellTyped(l, fr) && WellTyped(r, fr) && !IsLogic(op)
    requires BinaryAccepts(op, TypeOf(l), TypeOf(r))
    requires SafeOperator(op, l, r) && FoldOperator(op, l, r).Folded?
    ensures ApplyOp(op, LiteralWord(l), LiteralWord(r)) == Outcome.Ok(LiteralWord(FoldOperator(op, l, r).e))
  {
    hide ApplyOp, FoldArithmetic, FoldComparison, FoldDivide;
    if IsComparison(op) {
      ComparisonExact(op, l, r, fr);
    } else if op == IntDivide {
      DivideValue(l, r, fr);
    } else {
      ArithmeticValue(op, IntOf(l).value, IntOf(r).value);
      SignedRoundTrip(LiteralWord(l));
      SignedRoundTrip(LiteralWord(r));
    }
  }

  lemma {:induction false} DivideValue(l: Expr, r: Expr, fr: Frame)
    requires IsLiteral(l) && IsLiteral(r) && WellTyped(l, fr) && WellTyped(r, fr) && IsNumeric(TypeOf(l))
    requires IsNumeric(TypeOf(r))
    requires SafeOperator(IntDivide, l, r)
    ensures Matches(FoldOperator(IntDivide, l, r), ApplyOp(IntDivide, LiteralWord(l), LiteralWord(r)))
  {
    hide FloatQuotient, TruncDiv, ToWord, FloatOperand, LiteralWord;
    SignedOperand(l);
    SignedOperand(r);
    if FloatOperand(r) != 0 {
      DivideExact(l, r, fr);
    }
  }

  /** A literal of the wanted outcome. */
  predicate FoldsTo(e: Expr, b: bool) {
    Fold(e).Folded? && Fold(e).constant && Fold(e).e == BoolLit(b)
  }

  predicate FoldsAway(e: Expr) {
    Fold(e).Folded? && Fold(e).constant
  }

  /** The expressions on which folding is faithful, looking only where the folder looks: no && or || that
      loses a left operand which is not a literal, no unsigned comparison across the sign bit, no `//` on a
      dividend of 2^24 or more or by a char that run time takes for a small negative number. */
  predicate Safe(e: Expr)
  {
    match e
    case Unary(_, x) => Safe(x)
    case Binary(op, l, r) =>
      && Safe(l)
      && (IsLogic(op) ==> FoldsTo(l, op == LogicOr) || (Safe(r) && (FoldsAway(r) ==> FoldsAway(l))))
      && (!IsLogic(op) && FoldsAway(l) ==> Safe(r) && (FoldsAway(r) ==> SafeOperator(op, Fold(l).e, Fold(r).e)))
    case Ternary(c, t, f) => Safe(c) && (FoldsTo(c, true) ==> Safe(t)) && (FoldsTo(c, false) ==> Safe(f))
    case Cast(_, x) => Safe(x)
    case _ => true
  }

  lemma {:induction false} LiteralValue(e: Expr, st: Store)
    requires IsLiteral(e)
    ensures Eval(e, st) == Outcome.Ok((LiteralWord(e), st)) && IsWord(LiteralWord(e))
  {
  }

  lemma {:induction false} ConvertedWord(ty: Type, e: Expr, fr: Frame)
    requires IsLiteral(e) && WellTyped(e, fr) && ConvertLiteral(ty, e).Folded?
    ensures LiteralWord(ConvertLiteral(ty, e).e) == LiteralWord(e) && WellTyped(ConvertLiteral(ty, e).e, fr)
  {
  }

  lemma {:induction false} UnaryWord(op: UnOp, e: Expr, fr: Frame)
    requires IsLiteral(e) && WellTyped(e, fr) && UnaryAccepts(op, TypeOf(e)) && FoldUnary(op, e).Folded?
    ensures LiteralWord(FoldUnary(op, e).e) == ApplyUnary(op, LiteralWord(e))
  {
    hide Signed, ToWord;
    if e.IntLit? {
      WordRoundTrip(e.v);
    }
    if !e.BoolLit? {
      var v := Signed(LiteralWord(e));
      assert IntOf(e) == Some(v);
      IntWord(-v);
      IntWord(-v - 1);
    }
  }

  /** Folding preserves value, store and error of every well-typed safe expression. */
  lemma {:induction false} FoldPreserves(e: Expr, fr: Frame, st: Store)
    requires WellTyped(e, fr) && Safe(e) && Fold(e).Folded?
    ensures Eval(Fold(e).e, st) == Eval(e, st)
    decreases e, 2
  {
    hide SafeOperator, FoldOperator, ApplyOp, FoldUnary, ConvertLiteral, ApplyUnary, LiteralWord, BinaryAccepts,
      UnaryAccepts;
    FoldTyped(e, fr);
    match e {
      case Unary(op, x) =>
        FoldPreserves(x, fr, st);
        FoldTyped(x, fr);
        if FoldsAway(x) {
          LiteralValue(Fold(x).e, st);
          UnaryFolds(op, x, fr);
          LiteralValue(Fold(e).e, st);
        }
      case Binary(op, l, r) =>
        BinaryPreserved(e, fr, st);
      case Ternary(c, t, f) =>
        FoldPreserves(c, fr, st);
        FoldTyped(c, fr);
        TernaryPreserved(e, fr, st);
      case Cast(ty, x) =>
        FoldPreserves(x, fr, st);
        FoldTyped(x, fr);
        if FoldsAway(x) {
          LiteralValue(Fold(x).e, st);
          ConvertedWord(ty, Fold(x).e, fr);
          LiteralValue(Fold(e).e, st);
        }
      case _ =>
    }
  }

  lemma {:induction false} UnaryFolds(op: UnOp, x: Expr, fr: Frame)
    requires WellTyped(Unary(op, x), fr) && FoldsAway(x) && FoldUnary(op, Fold(x).e).Folded?
    ensures LiteralWord(FoldUnary(op, Fold(x).e).e) == ApplyUnary(op, LiteralWord(Fold(x).e))
  {
    FoldTyped(x, fr);
    UnaryWord(op, Fold(x).e, fr);
  }

  lemma {:induction false} TernaryPreserved(e: Expr, fr: Frame, st: Store)
    requires e.Ternary? && WellTyped(e, fr) && Safe(e) && Fold(e).Folded?
    requires Fold(e.cond).Folded? && Eval(Fold(e.cond).e, st) == Eval(e.cond, st)
    ensures Eval(Fold(e).e, st) == Eval(e, st)
    decreases e, 1
  {
    if FoldsAway(e.cond) {
      LiteralValue(Fold(e.cond).e, st);
      if Fold(e.cond).e.b {
        FoldPreserves(e.thn, fr, st);
      } else {
        FoldPreserves(e.els, fr, st);
      }
    }
  }

  lemma {:induction false} BinaryPreserved(e: Expr, fr: Frame, st: Store)
    requires e.Binary? && WellTyped(e, fr) && Safe(e) && Fold(e).Folded?
    ensures Eval(Fold(e).e, st) == Eval(e, st)
    decreases e, 1
  {
    FoldPreserves(e.l, fr, st);
    FoldTyped(e.l, fr);
    FoldTyped(e.r, fr);
    if FoldsAway(e.l) {
      LiteralValue(Fold(e.l).e, st);
    }
    if IsLogic(e.op) {
      LogicPreserved(e, fr, st);
    } else {
      OperatorPreserved(e, fr, st);
    }
  }

  lemma {:induction false} LogicPreserved(e: Expr, fr: Frame, st: Store)
    requires e.Binary? && IsLogic(e.op) && WellTyped(e, fr) && Safe(e) && Fold(e).Folded?
    requires Fold(e.l).Folded? && Eval(Fold(e.l).e, st) == Eval(e.l, st)
    ensures Eval(Fold(e).e, st) == Eval(e, st)
    decreases e, 0
  {
    var l' := Fold(e.l);
    if !FoldsTo(e.l, e.op == LogicOr) {
      match Eval(e.l, st) {
        case Ok((a, st1)) =>
          FoldPreserves(e.r, fr, st1);
          if FoldsAway(e.r) {
            LiteralValue(Fold(e.r).e, st1);
          }
        case Err(_) =>
      }
    }
  }

  lemma {:induction false} OperatorPreserved(e: Expr, fr: Frame, st: Store)
    requires e.Binary? && !IsLogic(e.op) && WellTyped(e, fr) && Safe(e) && Fold(e).Folded?
    requires Fold(e.l).Folded? && Eval(Fold(e.l).e, st) == Eval(e.l, st)
    ensures Eval(Fold(e).e, st) == Eval(e, st)
    decreases e, 0
  {
    if FoldsAway(e.l) {
      LiteralValue(Fold(e.l).e, st);
      FoldPreserves(e.r, fr, st);
      FoldTyped(e.l, fr);
      FoldTyped(e.r, fr);
      if FoldsAway(e.r) {
        LiteralValue(Fold(e.r).e, st);
        OperatorFolds(e.op, e.l, e.r, fr);
        LiteralValue(Fold(e).e, st);
      }
    }
  }

  lemma {:induction false} OperatorFolds(op: BinOp, l: Expr, r: Expr, fr: Frame)
    requires WellTyped(Binary(op, l, r), fr) && !IsLogic(op) && FoldsAway(l) && FoldsAway(r)
    requires SafeOperator(op, Fold(l).e, Fold(r).e) && FoldOperator(op, Fold(l).e, Fold(r).e).Folded?
    ensures ApplyOp(op, LiteralWord(Fold(l).e), LiteralWord(Fold(r).e))
      == Outcome.Ok(LiteralWord(FoldOperator(op, Fold(l).e, Fold(r).e).e))
  {
    FoldTyped(l, fr);
    FoldTyped(r, fr);
    OperatorValue(op, Fold(l).e, Fold(r).e, fr);
  }

  // ---------------------------------------------------------------- refusals

  predicate Contains(e: Expr, d: Expr) {
    e == d
    || match e
       case Unary(_, x) => Contains(x, d)
       case Binary(_, l, r) => Contains(l, d) || Contains(r, d)
       case Ternary(c, t, f) => Contains(c, d) || Contains(t, d) || Contains(f, d)
       case Cast(_, x) => Contains(x, d)
       case _ => false
  }

  /** Operators on two ints that C++ leaves undefined. */
  predicate Meaningless(op: BinOp, x: int, y: int) {
    (op in {LeftShift, ArithShift, LogicShift} && !(0 <= y < 32)) || (op == Modulo && x == -0x8000_0000 && y == -1)
  }

  lemma {:induction false} ArithmeticFailure(op: BinOp, x: int, y: int)
    requires -0x8000_0000 <= x < 0x8000_0000 && -0x8000_0000 <= y < 0x8000_0000 && !IsLogic(op) && !IsComparison(op)
    requires op != IntDivide
    ensures FoldArithmetic(op, x, y) == Failed(DivisionError) <==> op == Modulo && y == 0
    ensures FoldArithmetic(op, x, y) == Failed(NotDefined) <==> Meaningless(op, x, y)
  {
    hide Pow2, Bits, TruncMod, Quotient;
  }

  /** A division by zero that is raised whatever the variables hold. */
  ghost predicate AlwaysDividesByZero(d: Expr) {
    forall st :: Eval(d, st) == Outcome.Err(DivisionByZero)
  }

  /** The folder refuses only expressions with a part that cannot be right: a division by zero of
      constants, or an operation on constants that C++ leaves undefined. */
  lemma {:induction false} Refusal(e: Expr, fr: Frame) returns (d: Expr)
    requires WellTyped(e, fr) && Safe(e) && Fold(e).Failed?
    ensures Contains(e, d)
    ensures Fold(e).why == DivisionError ==> AlwaysDividesByZero(d)
    ensures Fold(e).why != DivisionError ==>
      && d.Binary? && FoldsAway(d.l) && FoldsAway(d.r) && IntOf(Fold(d.l).e).Some? && IntOf(Fold(d.r).e).Some?
      && Meaningless(d.op, IntOf(Fold(d.l).e).value, IntOf(Fold(d.r).e).value)
  {
    hide SafeOperator, FoldOperator, AlwaysDividesByZero, Meaningless, LiteralWord;
    FoldTyped(e, fr);
    match e {
      case Unary(op, x) =>
        if Fold(x).Failed? {
          d := Refusal(x, fr);
        } else {
          FoldTyped(x, fr);
          UnaryNeverFails(op, Fold(x).e, fr);
        }
      case Binary(op, l, r) =>
        if Fold(l).Failed? {
          d := Refusal(l, fr);
        } else if Fold(r).Failed? {
          d := Refusal(r, fr);
        } else {
          FoldTyped(l, fr);
          FoldTyped(r, fr);
          d := e;
          OperatorFailure(op, l, r, fr);
        }
      case Ternary(c, t, f) =>
        FoldTyped(c, fr);
        if Fold(c).Failed? {
          d := Refusal(c, fr);
        } else if Fold(c).e.b {
          d := Refusal(t, fr);
        } else {
          d := Refusal(f, fr);
        }
      case Cast(ty, x) =>
        if Fold(x).Failed? {
          d := Refusal(x, fr);
        } else {
          FoldTyped(x, fr);
          ConversionNeverFails(ty, Fold(x).e, fr);
        }
      case _ =>
    }
  }

  lemma {:induction false} UnaryNeverFails(op: UnOp, e: Expr, fr: Frame)
    requires IsLiteral(e) && WellTyped(e, fr)
    ensures FoldUnary(op, e).Failed? ==> FoldUnary(op, e).why == InvalidFold
  {
  }

  lemma {:induction false} ConversionNeverFails(ty: Type, e: Expr, fr: Frame)
    requires IsLiteral(e) && (TypeOf(e) == TBool <==> ty == TBool)
    ensures ConvertLiteral(ty, e).Folded?
  {
  }

  lemma {:induction false} OperatorFailure(op: BinOp, l: Expr, r: Expr, fr: Frame)
    requires WellTyped(Binary(op, l, r), fr) && Safe(Binary(op, l, r)) && !IsLogic(op) && FoldsAway(l) && FoldsAway(r)
    requires FoldOperator(op, Fold(l).e, Fold(r).e).Failed?
    ensures IntOf(Fold(l).e).Some? && IntOf(Fold(r).e).Some?
    ensures FoldOperator(op, Fold(l).e, Fold(r).e).why == DivisionError ==> AlwaysDividesByZero(Binary(op, l, r))
    ensures FoldOperator(op, Fold(l).e, Fold(r).e).why != DivisionError ==>
      Meaningless(op, IntOf(Fold(l).e).value, IntOf(Fold(r).e).value)
  {
    hide FoldArithmetic, FoldDivide, Safe, ApplyOp, LiteralWord, SafeOperator;
    FoldTyped(l, fr);
    FoldTyped(r, fr);
    SafeParts(op, l, r);
    var x, y := Fold(l).e, Fold(r).e;
    FoldOperatorTyped(op, x, y, fr);
    if op == IntDivide {
      DivideValue(x, y, fr);
    } else {
      ArithmeticFailure(op, IntOf(x).value, IntOf(y).value);
    }
    if FoldOperator(op, x, y).why == DivisionError {
      forall st
        ensures Eval(Binary(op, l, r), st) == Outcome.Err(DivisionByZero)
      {
        FoldPreserves(l, fr, st);
        FoldPreserves(r, fr, st);
        LiteralValue(x, st);
        LiteralValue(y, st);
        if op == Modulo {
          ZeroDivisor(LiteralWord(x), y);
        }
      }
    }
  }

  lemma {:induction false} SafeParts(op: BinOp, l: Expr, r: Expr)
    requires Safe(Binary(op, l, r)) && !IsLogic(op) && FoldsAway(l) && FoldsAway(r)
    ensures Safe(l) && Safe(r) && SafeOperator(op, Fold(l).e, Fold(r).e)
  {
  }

  lemma {:induction false} ZeroDivisor(a: int, y: Expr)
    requires IsWord(a) && IsLiteral(y) && IntOf(y) == Some(0)
    ensures ApplyOp(Modulo, a, LiteralWord(y)) == Outcome.Err(DivisionByZero)
  {
  }

  // ---------------------------------------------------------------- outside the safe domain

  /** && or || with a left operand that is not constant and a right one that is folds to the right one.
      At a store this is the run-time meaning exactly when the left operand ends without an error, leaves
      the store alone, and lets the right one decide. */
  lemma {:induction false} LostLeftExact(op: BinOp, l: Expr, r: Expr, b: bool, fr: Frame, st: Store)
    requires WellTyped(Binary(op, l, r), fr) && IsLogic(op) && Fold(l).Folded? && !FoldsAway(l) && Safe(r)
    requires FoldsTo(r, b)
    ensures Fold(Binary(op, l, r)) == Folded(BoolLit(b), true)
    ensures Eval(BoolLit(b), st) == Eval(Binary(op, l, r), st) <==>
      && Eval(l, st).Ok? && Eval(l, st).value.1 == st
      && (b == (op == LogicOr) || (Eval(l, st).value.0 != 0) == (op == LogicAnd))
  {
    if Eval(l, st).Ok? {
      FoldPreserves(r, fr, Eval(l, st).value.1);
    }
  }

  /** `flag && true` folds to `true` although flag is false. */
  lemma {:induction false} LostLeftExample()
    ensures var e := Binary(LogicAnd, Local(-1, TBool), BoolLit(true));
      Fold(e) == Folded(BoolLit(true), true) && Eval(e, map[]) == Outcome.Ok((0, map[]))
        && Eval(BoolLit(true), map[]) == Outcome.Ok((1, map[]))
  {
  }

  /** `-1 < 'a'` folds to false. */
  lemma {:induction false} MixedOrderExample()
    ensures var e := Binary(Less, IntLit(-1), CharLit(97));
      Fold(e) == Folded(BoolLit(false), true) && Eval(e, map[]) == Outcome.Ok((1, map[]))
  {
  }

  /** `16777217 // 1` folds to 16777216. */
  lemma {:induction false} DivisionExample()
    ensures var e := Binary(IntDivide, IntLit(FULL + 1), IntLit(1));
      Fold(e) == Folded(IntLit(FULL), true) && Eval(e, map[]) == Outcome.Ok((FULL + 1, map[]))
  {
    hide FloatQuotient, TruncDiv;
    FirstWrongQuotient();
    var l, r := IntLit(FULL + 1), IntLit(1);
    assert Fold(l) == Folded(l, true) && Fold(r) == Folded(r, true);
    assert Fold(Binary(IntDivide, l, r)) == FoldOperator(IntDivide, l, r) == FoldDivide(FULL + 1, 1);
    assert ApplyOp(IntDivide, FULL + 1, 1) == Outcome.Ok(ToWord(FULL + 1));
  }

  /** `4 // (char)(-1)` folds to 0 through an unsigned divisor; run time divides by -1. */
  lemma {:induction false} CharDivisorExample()
    ensures var e := Binary(IntDivide, IntLit(4), Cast(TChar, IntLit(-1)));
      Fold(e) == Folded(IntLit(0), true) && Eval(e, map[]) == Outcome.Ok((ToWord(-4), map[]))
  {
    hide FloatQuotient;
    var l, r := IntLit(4), Cast(TChar, IntLit(-1));
    FloatQuotientAgrees(4, MAX_ADDR);
    assert Fold(r) == Folded(CharLit(MAX_ADDR), true);
    assert Fold(Binary(IntDivide, l, r)) == FoldOperator(IntDivide, l, CharLit(MAX_ADDR)) == FoldDivide(4, MAX_ADDR);
    assert TruncDiv(4, MAX_ADDR) == 0 && TruncDiv(4, -1) == -4;
    assert Eval(r, map[]) == Outcome.Ok((MAX_ADDR, map[])) && Eval(l, map[]) == Outcome.Ok((4, map[]));
  }

  /** `x // 1` folds to x exactly when x has no bit below the last place of a float of its size. */
  lemma {:induction false} DivideByOneFolds(v: int)
    requires -0x8000_0000 <= v < 0x8000_0000
    ensures FoldDivide(v, 1) == Folded(IntLit(v), true) <==> Abs(v) % Pow2(Exponent(Abs(v), 1)) == 0
  {
    hide Quotient32, Pow2, Exponent;
    DivideByOneExact(Abs(v));
    var q := FloatQuotient(v, 1);
    if -0x8000_0000 <= q < 0x8000_0000 {
      WordRoundTrip(q);
    }
  }
}
