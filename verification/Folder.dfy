/** The constant folder, with the places where it departs from the run-time meaning left as they are:
    `//` goes through floats, a constant right operand of && or || replaces the whole expression, and
    comparisons that involve a char are unsigned. */
module Folder {
  import opened Words
  import opened Source
  import opened FloatDivision

  /** DivisionError is a reported error. NotDefined is a C++ expression without a defined value.
      InvalidFold is the exception for a literal that was expected and is not there. */
  datatype Failure = DivisionError | NotDefined | InvalidFold

  datatype FoldResult = Folded(e: Expr, constant: bool) | Failed(why: Failure)

  datatype StmResult = Rewritten(s: Stm) | StmFailed(why: Failure)

  datatype BlockResult = RewrittenAll(ss: seq<Stm>) | BlockFailed(why: Failure)

  predicate IsLiteral(e: Expr) {
    e.IntLit? || e.BoolLit? || e.CharLit?
  }

  /** The word a literal stands for. */
  function LiteralWord(e: Expr): int
    requires IsLiteral(e)
  {
    match e
    case IntLit(v) => ToWord(v)
    case BoolLit(b) => Flag(b)
    case CharLit(c) => ToWord(c)
  }

  function Int(i: int): FoldResult {
    Folded(IntLit(Signed(ToWord(i))), true)
  }

  function Bool(b: bool): FoldResult {
    Folded(BoolLit(b), true)
  }

  // ---------------------------------------------------------------- literals

  /** convertLiteralToType. A conversion of a number to bool runs off the end of convertConstantValueToType. */
  function ConvertLiteral(ty: Type, e: Expr): (r: FoldResult)
    requires IsLiteral(e)
    ensures r.Folded? ==> r.constant && IsLiteral(r.e)
  {
    match e
    case BoolLit(_) => Folded(e, true)
    case IntLit(v) => if ty == TInt then Folded(e, true) else if ty == TChar then Folded(CharLit(ToWord(v)), true)
                      else Failed(NotDefined)
    case CharLit(c) => if ty == TChar then Folded(e, true) else if ty == TInt then Int(c) else Failed(NotDefined)
  }

  function FoldUnary(op: UnOp, e: Expr): (r: FoldResult)
    requires IsLiteral(e)
    ensures r.Folded? ==> r.constant && IsLiteral(r.e)
  {
    if op == UPlus then Folded(e, true)
    else
      match e
      case BoolLit(b) => Bool(!b)
      case IntLit(v) => FoldSign(op, v)
      case CharLit(c) => FoldSign(op, Signed(ToWord(c)))
  }

  function FoldSign(op: UnOp, v: int): FoldResult {
    if op == UMinus then Int(-v) else if op == BitwiseNot then Int(-v - 1) else Failed(InvalidFold)
  }

  /** The operand of an arithmetic operator; a bool is not an alternative it looks for. */
  function IntOf(e: Expr): Option<int>
    requires IsLiteral(e)
  {
    match e
    case IntLit(v) => Some(v)
    case CharLit(c) => Some(Signed(ToWord(c)))
    case BoolLit(_) => None
  }

  /** The operand of `//`: ints convert to float as signed, chars as unsigned numbers. */
  function FloatOperand(e: Expr): int
    requires IsLiteral(e)
  {
    if e.IntLit? then e.v else LiteralWord(e)
  }

  /** Both operands become floats; a quotient that no int holds has no defined conversion back. */
  function FoldDivide(x: int, y: int): FoldResult {
    if y == 0 then Failed(DivisionError)
    else
      var q := FloatQuotient(x, y);
      if -0x8000_0000 <= q < 0x8000_0000 then Int(q) else Failed(NotDefined)
  }

  function FoldArithmetic(op: BinOp, x: int, y: int): FoldResult {
    match op
    case Plus => Int(x + y)
    case Minus => Int(x - y)
    case Times => Int(x * y)
    case Modulo =>
      if y == 0 then Failed(DivisionError)
      else if x == -0x8000_0000 && y == -1 then Failed(NotDefined)
      else Int(TruncMod(x, y))
    case BitAnd => Int(Bits(And, ToWord(x), ToWord(y)))
    case BitOr => Int(Bits(Or, ToWord(x), ToWord(y)))
    case BitXor => Int(Bits(Xor, ToWord(x), ToWord(y)))
    case LeftShift => if 0 <= y < 32 then Int(x * Pow2(y)) else Failed(NotDefined)
    case ArithShift => if 0 <= y < 32 then Int(x / Pow2(y)) else Failed(NotDefined)
    case LogicShift => if 0 <= y < 32 then Int(Quotient(ToWord(x), Pow2(y))) else Failed(NotDefined)
    case _ => Failed(InvalidFold)
  }

  /** The key a comparison uses: two ints compare as ints, anything else as unsigned. */
  function CompareKey(e: Expr, other: Expr): int
    requires IsLiteral(e)
  {
    if e.IntLit? && other.IntLit? then e.v else LiteralWord(e)
  }

  function FoldComparison(op: BinOp, l: Expr, r: Expr): bool
    requires IsLiteral(l) && IsLiteral(r)
  {
    var x, y := CompareKey(l, r), CompareKey(r, l);
    match op
    case Equal => x == y
    case NotEqual => x != y
    case Less => x < y
    case LessEqual => x <= y
    case Greater => x > y
    case _ => x >= y
  }

  function FoldOperator(op: BinOp, l: Expr, r: Expr): (res: FoldResult)
    requires IsLiteral(l) && IsLiteral(r)
    ensures res.Folded? ==> res.constant && IsLiteral(res.e)
  {
    if IsComparison(op) then Bool(FoldComparison(op, l, r))
    else if IntOf(l).None? || IntOf(r).None? then Failed(InvalidFold)
    else if op == IntDivide then FoldDivide(FloatOperand(l), FloatOperand(r))
    else FoldArithmetic(op, IntOf(l).value, IntOf(r).value)
  }

  // ---------------------------------------------------------------- expressions

  /** foldExpr: the rewritten expression and the flag it returns. */
  function Fold(e: Expr): (r: FoldResult)
    ensures r.Folded? && r.constant ==> IsLiteral(r.e)
    decreases e, 1
  {
    match e
    case IntLit(_) => Folded(e, true)
    case BoolLit(_) => Folded(e, true)
    case CharLit(_) => Folded(e, true)
    case Local(_, _) => Folded(e, false)
    case IncDec(_, _, _, _) => Folded(e, false)
    case Unary(op, x) => (
      match Fold(x)
      case Folded(x', true) => FoldUnary(op, x')
      case Folded(x', false) => Folded(Unary(op, x'), false)
      case Failed(w) => Failed(w))
    case Binary(op, l, r) => if IsLogic(op) then FoldLogic(e) else FoldBinary(e)
    case Ternary(c, t, f) => (
      match Fold(c)
      case Folded(c', true) => if !c'.BoolLit? then Failed(InvalidFold) else if c'.b then Fold(t) else Fold(f)
      case Folded(c', false) => Folded(Ternary(c', t, f), false)
      case Failed(w) => Failed(w))
    case Cast(ty, x) => (
      match Fold(x)
      case Folded(x', true) => ConvertLiteral(ty, x')
      case Folded(x', false) => Folded(Cast(ty, x'), false)
      case Failed(w) => Failed(w))
  }

  /** The left operand decides alone when it is a literal; otherwise only the right one is looked at. */
  function FoldLogic(e: Expr): (res: FoldResult)
    requires e.Binary?
    ensures res.Folded? && res.constant ==> IsLiteral(res.e)
    decreases e, 0
  {
    match Fold(e.l)
    case Failed(w) => Failed(w)
    case Folded(l', cl) =>
      if cl && !l'.BoolLit? then Failed(InvalidFold)
      else if cl && l'.b == (e.op == LogicOr) then Bool(e.op == LogicOr)
      else
        match Fold(e.r)
        case Failed(w) => Failed(w)
        case Folded(r', false) => Folded(Binary(e.op, l', r'), false)
        case Folded(r', true) => if r'.BoolLit? then Bool(r'.b) else Failed(InvalidFold)
  }

  function FoldBinary(e: Expr): (res: FoldResult)
    requires e.Binary?
    ensures res.Folded? && res.constant ==> IsLiteral(res.e)
    decreases e, 0
  {
    match Fold(e.l)
    case Failed(w) => Failed(w)
    case Folded(l', false) => Folded(Binary(e.op, l', e.r), false)
    case Folded(l', true) =>
      match Fold(e.r)
      case Failed(w) => Failed(w)
      case Folded(r', false) => Folded(Binary(e.op, l', r'), false)
      case Folded(r', true) => FoldOperator(e.op, l', r')
  }

  // ---------------------------------------------------------------- statements

  /** An expression stored into a variable: a literal takes the variable's type. */
  function FoldAs(e: Expr, ty: Type): FoldResult {
    match Fold(e)
    case Folded(e', true) => ConvertLiteral(ty, e')
    case r => r
  }

  /** A range bound must be a literal and becomes an int. */
  function FoldBound(e: Expr): FoldResult {
    match Fold(e)
    case Folded(e', true) => ConvertLiteral(TInt, e')
    case Folded(_, false) => Failed(InvalidFold)
    case r => r
  }

  function FoldStm(s: Stm): StmResult
    decreases s, 1
  {
    match s
    case VarDecl(slot, ty, init) =>
      if init.None? then Rewritten(s)
      else (
        match FoldAs(init.value, ty)
        case Folded(e, _) => Rewritten(VarDecl(slot, ty, Some(e)))
        case Failed(w) => StmFailed(w))
    case Assign(slot, ty, e) => (
      match FoldAs(e, ty)
      case Folded(e', _) => Rewritten(Assign(slot, ty, e'))
      case Failed(w) => StmFailed(w))
    case OpAssign(slot, ty, op, e) => (
      match FoldAs(e, ty)
      case Folded(e', _) => Rewritten(OpAssign(slot, ty, op, e'))
      case Failed(w) => StmFailed(w))
    case Block(ss) => (
      match FoldBlock(ss)
      case RewrittenAll(ss') => Rewritten(Block(ss'))
      case BlockFailed(w) => StmFailed(w))
    case If(c, thn, els) => (
      match Fold(c)
      case Failed(w) => StmFailed(w)
      case Folded(c', _) =>
        match FoldBlock(thn)
        case BlockFailed(w) => StmFailed(w)
        case RewrittenAll(thn') =>
          if els.None? then Rewritten(If(c', thn', None))
          else
            match FoldStm(els.value)
            case Rewritten(els') => Rewritten(If(c', thn', Some(els')))
            case StmFailed(w) => StmFailed(w))
    case While(c, ss) => (
      match Fold(c)
      case Failed(w) => StmFailed(w)
      case Folded(c', _) =>
        match FoldBlock(ss)
        case RewrittenAll(ss') => Rewritten(While(c', ss'))
        case BlockFailed(w) => StmFailed(w))
    case For(slot, ty, a, b, step, ss) => (
      match (FoldBound(a), FoldBound(b), FoldStep(step))
      case (Failed(w), _, _) => StmFailed(w)
      case (_, Failed(w), _) => StmFailed(w)
      case (_, _, Failed(w)) => StmFailed(w)
      case (Folded(a', _), Folded(b', _), Folded(d, _)) =>
        match FoldBlock(ss)
        case RewrittenAll(ss') => Rewritten(For(slot, ty, a', b', if step.None? then None else Some(d), ss'))
        case BlockFailed(w) => StmFailed(w))
    case Return(e, ty) =>
      if e.None? then Rewritten(s)
      else (
        match FoldAs(e.value, ty)
        case Folded(e', _) => Rewritten(Return(Some(e'), ty))
        case Failed(w) => StmFailed(w))
    case _ => Rewritten(s)
  }

  function FoldStep(step: Option<Expr>): FoldResult {
    if step.None? then Int(1) else FoldBound(step.value)
  }

  function FoldBlock(ss: seq<Stm>): BlockResult
    decreases ss, 0
  {
    if ss == [] then RewrittenAll([])
    else
      match FoldStm(ss[0])
      case StmFailed(w) => BlockFailed(w)
      case Rewritten(s) =>
        match FoldBlock(ss[1..])
        case BlockFailed(w) => BlockFailed(w)
        case RewrittenAll(rest) => RewrittenAll([s] + rest)
  }

  function Prepend(done: seq<Stm>, rest: BlockResult): BlockResult {
    match rest
    case RewrittenAll(ss) => RewrittenAll(done + ss)
    case BlockFailed(w) => BlockFailed(w)
  }

  /** foldStmBlock: every statement is replaced where it stands; a failure stops the walk. */
  method FoldStmBlock(statements: array<Stm>) returns (failure: Option<Failure>)
    modifies statements
    ensures match FoldBlock(old(statements[..]))
            case RewrittenAll(ss) => failure == None && statements[..] == ss
            case BlockFailed(w) => failure == Some(w)
  {
    hide FoldStm;
    ghost var was := statements[..];
    for i := 0 to statements.Length
      invariant statements[i..] == was[i..] && FoldBlock(was) == Prepend(statements[..i], FoldBlock(was[i..]))
    {
      assert was[i..][0] == statements[i] && was[i..][1..] == was[i + 1..];
      match FoldStm(statements[i]) {
        case StmFailed(w) => return Some(w);
        case Rewritten(s) =>
          ghost var done, rest := statements[..i], FoldBlock(was[i + 1..]);
          statements[i] := s;
          assert statements[..i + 1] == done + [s];
          if rest.RewrittenAll? {
            assert done + ([s] + rest.ss) == done + [s] + rest.ss;
          }
      }
    }
    assert statements[..statements.Length] + [] == statements[..];
    return None;
  }
}
