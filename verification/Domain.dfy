/** Where compiled expressions mean what the source says.

    `bitwiseNot` leaves ones in the high half of a 32-bit value. `Clean` tracks which int results
    surely have a zero high half, given the slots of the frame that may be dirty; `Sound` asks for it exactly
    where the VM reads all 64 bits, and keeps the other slots clean.
    Unary plus and minus on a char leave a ui32 where the analyser promises an int. */
module Domain {
  import opened Words
  import opened Source

  predicate Clean(e: Expr, fr: Frame)
    decreases e, 0
  {
    match e
    case Local(slot, _) => slot !in fr.dirty
    case Unary(op, x) => (op == UPlus && Clean(x, fr)) || op == UMinus || op == LogicNot
    case Binary(op, l, r) => CleanResult(op, CleanAs(l, TInt, fr), CleanAs(r, TInt, fr))
    case Ternary(_, t, f) => CleanAs(t, TypeOf(e), fr) && CleanAs(f, TypeOf(e), fr)
    case Cast(ty, x) => CleanAs(x, ty, fr)
    case _ => true
  }

  /** Bitwise operators pass high halves through; everything else truncates. */
  predicate CleanResult(op: BinOp, left: bool, right: bool) {
    if op == BitAnd then left || right
    else if op == BitOr || op == BitXor then left && right
    else true
  }

  /** Clean once converted to a type: a conversion between int and char clears the high half. */
  predicate CleanAs(e: Expr, ty: Type, fr: Frame)
    decreases e, 1
  {
    (TypeOf(e) == TInt) != (ty == TInt) || Clean(e, fr)
  }

  predicate Sound(e: Expr, fr: Frame)
    decreases e, 0
  {
    match e
    case Local(slot, t) => t != TInt ==> slot !in fr.dirty
    case Unary(op, x) => Sound(x, fr) && ((op == UPlus || op == UMinus) ==> TypeOf(x) == TInt)
    case Binary(op, l, r) => Sound(l, fr) && SoundRight(op, CleanAs(l, TInt, fr), r, fr)
    case Ternary(c, t, f) => Sound(c, fr) && Sound(t, fr) && Sound(f, fr)
    case Cast(_, x) => Sound(x, fr)
    case _ => true
  }

  /** The right operand, when the left one is clean or not. */
  predicate SoundRight(op: BinOp, left: bool, r: Expr, fr: Frame)
    decreases r, 1
  {
    Sound(r, fr) && Reads(op, left, CleanAs(r, TInt, fr))
  }

  /** Equality reads all 64 bits of both operands, logical right shift those of the left one. */
  predicate Reads(op: BinOp, left: bool, right: bool) {
    ((op == Equal || op == NotEqual) ==> left && right) && (op == LogicShift ==> left)
  }

  /** A compound assignment loads and stores four bytes of its variable, any other all eight. */
  predicate SoundStm(s: Stm, fr: Frame)
  {
    match s
    case VarDecl(slot, t, init) => init.Some? ==> Sound(init.value, fr) && Storable(slot, init.value, t, fr)
    case Assign(slot, t, e) => Sound(e, fr) && Storable(slot, e, t, fr)
    case OpAssign(_, _, op, e) => SoundRight(op, true, e, fr)
    case Block(ss) => SoundBlock(ss, fr)
    case If(c, thn, els) => Sound(c, fr) && SoundBlock(thn, fr) && (els.Some? ==> SoundStm(els.value, fr))
    case While(c, ss) => Sound(c, fr) && SoundBlock(ss, fr)
    case For(_, _, a, b, step, ss) =>
      Sound(a, fr) && Sound(b, fr) && (step.Some? ==> Sound(step.value, fr)) && SoundBlock(ss, fr)
    case Return(e, _) => e.Some? ==> Sound(e.value, fr)
    case _ => true
  }

  predicate SoundBlock(ss: seq<Stm>, fr: Frame) {
    forall i | 0 <= i < |ss| :: SoundStm(ss[i], fr)
  }

  /** A dirty value goes to a dirty slot only. */
  predicate Storable(slot: int, e: Expr, t: Type, fr: Frame) {
    slot in fr.dirty || CleanAs(e, t, fr)
  }

  /** Only int results can be dirty. */
  lemma {:induction false} NonIntIsClean(e: Expr, fr: Frame)
    requires WellTyped(e, fr) && Sound(e, fr) && TypeOf(e) != TInt
    ensures Clean(e, fr)
  {
    match e
    case Ternary(_, t, f) =>
      if TypeOf(t) != TInt { NonIntIsClean(t, fr); }
      if TypeOf(f) != TInt { NonIntIsClean(f, fr); }
    case Cast(ty, x) =>
      if TypeOf(x) != TInt { NonIntIsClean(x, fr); }
    case _ =>
  }

  // ---------------------------------------------------------------- operand stack needed

  /** Operands an expression may have on the stack at once, its result included. */
  function Need(e: Expr): nat
    decreases e, 0
  {
    match e
    case Unary(op, x) => if op == UMinus then 1 + Need(x) else Max(1, Need(x))
    case IncDec(_, _, _, _) => 4
    case Binary(op, l, r) => Max(Need(l), NeedRight(op, r))
    case Ternary(c, t, f) => Max(Need(c), Max(Need(t), Need(f)))
    case Cast(_, x) => Need(x)
    case _ => 1
  }

  /** With the left operand counted. */
  function NeedRight(op: BinOp, r: Expr): nat
    decreases r, 1
  {
    if IsLogic(op) then Max(1, Need(r)) else 1 + Need(r)
  }

  function NeedStm(s: Stm): nat {
    match s
    case VarDecl(_, _, init) => if init.Some? then Need(init.value) else 0
    case Assign(_, _, e) => Need(e)
    case OpAssign(_, _, op, e) => Max(2, 1 + NeedRight(op, e))
    case Bump(_, _, _) => 3
    case Block(ss) => NeedBlock(ss)
    case If(c, thn, els) => Max(Need(c), Max(NeedBlock(thn), if els.Some? then NeedStm(els.value) else 0))
    case While(c, ss) => Max(Need(c), NeedBlock(ss))
    case For(_, _, a, b, step, ss) =>
      Max(8, Max(4 + Need(a), Max(2 + Need(b), Max(if step.Some? then Need(step.value) else 0, 5 + NeedBlock(ss)))))
    case Return(e, _) => if e.Some? then Need(e.value) else 0
    case _ => 0
  }

  function NeedBlock(ss: seq<Stm>): nat {
    if ss == [] then 0 else Max(NeedStm(ss[0]), NeedBlock(ss[1..]))
  }

  lemma {:induction false} NeedPositive(e: Expr)
    ensures Need(e) >= 1
  {
    match e
    case Unary(_, x) => NeedPositive(x);
    case Binary(_, l, _) => NeedPositive(l);
    case Ternary(c, _, _) => NeedPositive(c);
    case Cast(_, x) => NeedPositive(x);
    case _ =>
  }
}
