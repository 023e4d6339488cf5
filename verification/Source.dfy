/** The source language below the analyser: expressions and statements whose variables are already
    frame slots, with their types and their meaning. Values are 32-bit words read at a type. */
module Source {
  import opened Words
  import opened Isa

  datatype Type = TInt | TBool | TChar

  /** Bytes of an array element; every type has the same size. */
  const ELEMENT := 4

  /** Element i of the array at p, behind the length word. */
  function ElementAddress(p: int, i: int): int {
    p + 4 + ELEMENT * i
  }

  datatype Option<+T> = None | Some(value: T)

  datatype BinOp =
    | Plus | Minus | Times | IntDivide | Modulo
    | BitOr | BitXor | BitAnd | LeftShift | ArithShift | LogicShift
    | LogicOr | LogicAnd
    | Equal | NotEqual | Less | LessEqual | Greater | GreaterEqual

  datatype UnOp = UPlus | UMinus | BitwiseNot | LogicNot

  datatype Expr =
    | IntLit(v: int)
    | BoolLit(b: bool)
    | CharLit(c: int)
    | Local(slot: int, ty: Type)
    | Unary(uop: UnOp, e: Expr)
    | IncDec(prefix: bool, up: bool, slot: int, ty: Type)
    | Binary(op: BinOp, l: Expr, r: Expr)
    | Ternary(cond: Expr, thn: Expr, els: Expr)
    | Cast(ty: Type, e: Expr)

  datatype Stm =
    | VarDecl(slot: int, ty: Type, init: Option<Expr>)
    | Assign(slot: int, ty: Type, e: Expr)
    | OpAssign(slot: int, ty: Type, op: BinOp, e: Expr)
    | Bump(up: bool, slot: int, ty: Type)
    | Block(body: seq<Stm>)
    | If(cond: Expr, thn: seq<Stm>, els: Option<Stm>)
    | While(cond: Expr, body: seq<Stm>)
    | For(slot: int, ty: Type, start: Expr, end: Expr, step: Option<Expr>, body: seq<Stm>)
    | Break
    | Continue
    | Return(result: Option<Expr>, ty: Type)

  // ---------------------------------------------------------------- types

  predicate IsNumeric(t: Type) {
    t == TInt || t == TChar
  }

  predicate IsLogic(op: BinOp) {
    op == LogicOr || op == LogicAnd
  }

  predicate IsComparison(op: BinOp) {
    op in {Equal, NotEqual, Less, LessEqual, Greater, GreaterEqual}
  }

  /** The analyser's resultingType. */
  function TypeOf(e: Expr): Type {
    match e
    case IntLit(_) => TInt
    case BoolLit(_) => TBool
    case CharLit(_) => TChar
    case Local(_, t) => t
    case Unary(op, x) => if op == LogicNot then TBool else TInt
    case IncDec(_, _, _, t) => t
    case Binary(op, _, _) => if IsLogic(op) || IsComparison(op) then TBool else TInt
    case Ternary(_, t, f) => TernaryType(TypeOf(t), TypeOf(f))
    case Cast(t, _) => t
  }

  /** processTernaryOperator: a char on either side makes the result a char. */
  function TernaryType(a: Type, b: Type): Type {
    if a == TBool && b == TBool then TBool
    else if a == TChar || b == TChar then TChar
    else TInt
  }

  /** canImplicitlyConvert on the scalar types modelled. */
  predicate Converts(from: Type, to: Type) {
    from == to || (from == TChar && to == TInt)
  }

  /** What the code generator converts. The analyser accepts less for a target of type char, but the
      folder can leave an int there: a range bound, or the chosen branch of a mixed ternary. */
  predicate Convertible(from: Type, to: Type) {
    from == to || (IsNumeric(from) && IsNumeric(to))
  }

  predicate BinaryAccepts(op: BinOp, a: Type, b: Type) {
    if IsLogic(op) then a == TBool && b == TBool
    else if op == Equal || op == NotEqual then (IsNumeric(a) && IsNumeric(b)) || a == b
    else IsNumeric(a) && IsNumeric(b)
  }

  predicate UnaryAccepts(op: UnOp, t: Type) {
    if op == LogicNot then t == TBool else IsNumeric(t)
  }

  /** Argument and local slots; the dirty ones may hold an int whose 64-bit cell has ones in its high half. */
  datatype Frame = Frame(args: nat, locals: nat, dirty: set<int>)

  predicate SlotOk(slot: int, fr: Frame) {
    1 <= slot <= fr.args || -(fr.locals as int) <= slot <= -1
  }

  /** Accepted by the analyser, with every variable in a slot of the frame. */
  predicate WellTyped(e: Expr, fr: Frame) {
    match e
    case IntLit(v) => -0x8000_0000 <= v < 0x8000_0000
    case BoolLit(_) => true
    case CharLit(c) => IsWord(c)
    case Local(slot, _) => SlotOk(slot, fr)
    case Unary(op, x) => WellTyped(x, fr) && UnaryAccepts(op, TypeOf(x))
    case IncDec(_, _, slot, t) => SlotOk(slot, fr) && IsNumeric(t)
    case Binary(op, l, r) => WellTyped(l, fr) && WellTyped(r, fr) && BinaryAccepts(op, TypeOf(l), TypeOf(r))
    case Ternary(c, t, f) =>
      WellTyped(c, fr) && WellTyped(t, fr) && WellTyped(f, fr) && TypeOf(c) == TBool
      && ((IsNumeric(TypeOf(t)) && IsNumeric(TypeOf(f))) || (TypeOf(t) == TBool && TypeOf(f) == TBool))
    case Cast(t, x) =>
      WellTyped(x, fr) && ((IsNumeric(t) && IsNumeric(TypeOf(x))) || (t == TBool && TypeOf(x) == TBool))
  }

  /** Where a statement stands: inside a loop of its method, and in a user function or in a scope
      method. Range loops are compiled in place only in scope methods, returns exist only in user
      functions. */
  datatype Place = Place(inLoop: bool, inFunction: bool)

  predicate WellTypedStm(s: Stm, fr: Frame, pl: Place) {
    match s
    case VarDecl(slot, t, init) => SlotOk(slot, fr)
      && (init.Some? ==> WellTyped(init.value, fr) && Convertible(TypeOf(init.value), t))
    case Assign(slot, t, e) => SlotOk(slot, fr) && WellTyped(e, fr) && Convertible(TypeOf(e), t)
    case OpAssign(slot, t, op, e) =>
      SlotOk(slot, fr) && WellTyped(e, fr) && BinaryAccepts(op, t, TypeOf(e)) && !IsComparison(op)
      && Converts(if IsLogic(op) then TBool else TInt, t)
    case Bump(_, slot, t) => SlotOk(slot, fr) && IsNumeric(t)
    case Block(ss) => WellTypedBlock(ss, fr, pl)
    case If(c, thn, els) =>
      WellTyped(c, fr) && TypeOf(c) == TBool && WellTypedBlock(thn, fr, pl)
      && (els.Some? ==> WellTypedStm(els.value, fr, pl))
    case While(c, ss) => WellTyped(c, fr) && TypeOf(c) == TBool && WellTypedBlock(ss, fr, pl.(inLoop := true))
    case For(slot, t, a, b, step, ss) =>
      !pl.inFunction && SlotOk(slot, fr) && IsNumeric(t) && WellTyped(a, fr) && WellTyped(b, fr)
      && Convertible(TypeOf(a), t) && Convertible(TypeOf(b), t)
      && (step.Some? ==> WellTyped(step.value, fr) && Convertible(TypeOf(step.value), t))
      && WellTypedBlock(ss, fr, pl.(inLoop := true))
    case Break => pl.inLoop
    case Continue => pl.inLoop
    case Return(e, t) => pl.inFunction && (e.Some? ==> WellTyped(e.value, fr) && Convertible(TypeOf(e.value), t))
  }

  predicate WellTypedBlock(ss: seq<Stm>, fr: Frame, pl: Place) {
    forall i | 0 <= i < |ss| :: WellTypedStm(ss[i], fr, pl)
  }

  // ---------------------------------------------------------------- meaning

  type Store = map<int, int>

  function Fetch(st: Store, slot: int): (w: int)
    ensures IsWord(w)
  {
    if slot in st then ToWord(st[slot]) else 0
  }

  function Flag(b: bool): int {
    if b then 1 else 0
  }

  /** Binary operators other than && and || on two words; operands are read as signed ints. */
  function ApplyOp(op: BinOp, a: int, b: int): Outcome<int>
    requires IsWord(a) && IsWord(b)
  {
    match op
    case Plus => Ok(ToWord(Signed(a) + Signed(b)))
    case Minus => Ok(ToWord(Signed(a) - Signed(b)))
    case Times => Ok(ToWord(Signed(a) * Signed(b)))
    case IntDivide =>
      if b == 0 then Err(DivisionByZero)
      else if Signed(a) == -0x8000_0000 && Signed(b) == -1 then Err(Undefined)
      else Ok(ToWord(TruncDiv(Signed(a), Signed(b))))
    case Modulo =>
      if b == 0 then Err(DivisionByZero)
      else if Signed(a) == -0x8000_0000 && Signed(b) == -1 then Err(Undefined)
      else Ok(ToWord(TruncMod(Signed(a), Signed(b))))
    case BitOr => Ok(ToWord(Bits(Or, a, b)))
    case BitXor => Ok(ToWord(Bits(Xor, a, b)))
    case BitAnd => Ok(ToWord(Bits(And, a, b)))
    case LeftShift => Ok(ToWord(Signed(a) * Pow2(b % 32)))
    case ArithShift => Ok(ToWord(Signed(a) / Pow2(b % 32)))
    case LogicShift => Ok(ToWord(Quotient(a, Pow2(b % 32))))
    case Equal => Ok(Flag(a == b))
    case NotEqual => Ok(Flag(a != b))
    case Less => Ok(Flag(Signed(a) < Signed(b)))
    case LessEqual => Ok(Flag(Signed(a) <= Signed(b)))
    case Greater => Ok(Flag(Signed(a) > Signed(b)))
    case GreaterEqual => Ok(Flag(Signed(a) >= Signed(b)))
    case LogicOr => Ok(Flag(a != 0 || b != 0))
    case LogicAnd => Ok(Flag(a != 0 && b != 0))
  }

  function ApplyUnary(op: UnOp, w: int): int
    requires IsWord(w)
  {
    match op
    case UPlus => w
    case UMinus => ToWord(-Signed(w))
    case BitwiseNot => ToWord(-Signed(w) - 1)
    case LogicNot => Flag(w == 0)
  }

  function Bumped(w: int, up: bool): int {
    ToWord(if up then w + 1 else w - 1)
  }

  /** Value and new store of an expression, or the error it raises.
      Operands run left to right; && and || stop at a deciding left operand. */
  function Eval(e: Expr, st: Store): (r: Outcome<(int, Store)>)
    ensures r.Ok? ==> IsWord(r.value.0)
    decreases e, 0
  {
    match e
    case IntLit(v) => Ok((ToWord(v), st))
    case BoolLit(b) => Ok((Flag(b), st))
    case CharLit(c) => Ok((ToWord(c), st))
    case Local(slot, _) => Ok((Fetch(st, slot), st))
    case Unary(op, x) => (
      match Eval(x, st)
      case Ok((w, st1)) => Ok((ApplyUnary(op, w), st1))
      case Err(f) => Err(f))
    case IncDec(prefix, up, slot, _) =>
      var w := Fetch(st, slot);
      var w1 := Bumped(w, up);
      Ok((if prefix then w1 else w, st[slot := w1]))
    case Binary(op, l, r) => (
      match Eval(l, st)
      case Ok((a, st1)) => EvalRight(op, a, r, st1)
      case Err(f) => Err(f))
    case Ternary(c, t, f) => (
      match Eval(c, st)
      case Ok((b, st1)) => if b != 0 then Eval(t, st1) else Eval(f, st1)
      case Err(f) => Err(f))
    case Cast(_, x) => Eval(x, st)
  }

  /** The rest of a binary expression once the left operand is known. */
  function EvalRight(op: BinOp, a: int, r: Expr, st: Store): (res: Outcome<(int, Store)>)
    requires IsWord(a)
    ensures res.Ok? ==> IsWord(res.value.0)
    decreases r, 1
  {
    if op == LogicOr && a != 0 then Ok((1, st))
    else if op == LogicAnd && a == 0 then Ok((0, st))
    else
      match Eval(r, st)
      case Ok((b, st1)) => (
        match ApplyOp(op, a, b)
        case Ok(w) => Ok((w, st1))
        case Err(f) => Err(f))
      case Err(f) => Err(f)
  }

  datatype Flow =
    | Next(st: Store)
    | Broke(st: Store)
    | Continued(st: Store)
    | Returned(st: Store, ty: Type, result: Option<int>)
    | Raised(fault: Fault)
    | OutOfFuel

  /** Order of a loop variable's type. */
  function Key(t: Type, w: int): int {
    if t == TInt then Signed(w) else w
  }

  /** Whether a range loop runs its body for the current value. */
  predicate InRange(t: Type, step: int, cur: int, end: int) {
    if Key(t, step) >= 0 then Key(t, cur) < Key(t, end) else Key(t, cur) > Key(t, end)
  }

  /** One statement. Each loop iteration spends a unit of fuel; OutOfFuel says nothing more. */
  function Exec(fuel: nat, s: Stm, st: Store): Flow
    decreases fuel, s, 1
  {
    match s
    case VarDecl(slot, _, init) => if init.None? then Next(st) else StoreInto(slot, Eval(init.value, st))
    case Assign(slot, _, e) => StoreInto(slot, Eval(e, st))
    case OpAssign(slot, _, op, e) => StoreInto(slot, EvalRight(op, Fetch(st, slot), e, st))
    case Bump(up, slot, _) => Next(st[slot := Bumped(Fetch(st, slot), up)])
    case Block(ss) => ExecBlock(fuel, ss, st)
    case If(c, thn, els) => (
      match Eval(c, st)
      case Ok((w, st1)) =>
        if w != 0 then ExecBlock(fuel, thn, st1)
        else if els.Some? then Exec(fuel, els.value, st1)
        else Next(st1)
      case Err(f) => Raised(f))
    case While(c, body) =>
      if fuel == 0 then OutOfFuel
      else (
        match Eval(c, st)
        case Ok((w, st1)) =>
          if w == 0 then Next(st1)
          else (
            match ExecBlock(fuel, body, st1)
            case Next(st2) => Exec(fuel - 1, s, st2)
            case Continued(st2) => Exec(fuel - 1, s, st2)
            case Broke(st2) => Next(st2)
            case other => other)
        case Err(f) => Raised(f))
    case For(slot, t, a, b, step, _) => (
      match EvalStep(step, st)
      case Ok((d, st1)) =>
        if d == 0 then Raised(ZeroStep)
        else (
          match Eval(b, st1)
          case Ok((end, st2)) => (
            match Eval(a, st2)
            case Ok((cur, st3)) => ExecRange(fuel, s, cur, end, d, st3)
            case Err(f) => Raised(f))
          case Err(f) => Raised(f))
      case Err(f) => Raised(f))
    case Break => Broke(st)
    case Continue => Continued(st)
    case Return(e, t) =>
      if e.None? then Returned(st, t, None)
      else (
        match Eval(e.value, st)
        case Ok((w, st1)) => Returned(st1, t, Some(w))
        case Err(f) => Raised(f))
  }

  function StoreInto(slot: int, r: Outcome<(int, Store)>): Flow {
    match r
    case Ok((w, st)) => Next(st[slot := w])
    case Err(f) => Raised(f)
  }

  /** A range without a step counts up by one. */
  function EvalStep(step: Option<Expr>, st: Store): (r: Outcome<(int, Store)>)
    ensures r.Ok? ==> IsWord(r.value.0)
  {
    if step.Some? then Eval(step.value, st) else Ok((1, st))
  }

  function ExecBlock(fuel: nat, ss: seq<Stm>, st: Store): Flow
    decreases fuel, ss, 0
  {
    if ss == [] then Next(st)
    else
      match Exec(fuel, ss[0], st)
      case Next(st1) => ExecBlock(fuel, ss[1..], st1)
      case other => other
  }

  /** The iterations of a range loop from the current value on. The body may change the loop variable
      without effect on the count: the next value comes from `cur`. */
  function ExecRange(fuel: nat, s: Stm, cur: int, end: int, step: int, st: Store): Flow
    requires s.For?
    decreases fuel, s, 0
  {
    if fuel == 0 then OutOfFuel
    else if !InRange(s.ty, step, cur, end) then Next(st)
    else
      match ExecBlock(fuel, s.body, st[s.slot := cur])
      case Next(st1) => ExecRange(fuel - 1, s, ToWord(cur + step), end, step, st1)
      case Continued(st1) => ExecRange(fuel - 1, s, ToWord(cur + step), end, step, st1)
      case Broke(st1) => Next(st1)
      case other => other
  }
}
