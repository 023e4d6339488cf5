/** The type rules of the language, as tables of operand types, and programs that are surely in the domain of the
    code generator. */
module TypeRules {
  import opened Words
  import opened Source
  import opened Domain
  import opened CodeGen
  import opened Program

  // ---------------------------------------------------------------- tables

  const NUMBERS: set<(Type, Type)> := {(TInt, TInt), (TInt, TChar), (TChar, TInt), (TChar, TChar)}

  const BOOLS: set<(Type, Type)> := {(TBool, TBool)}

  /** Operand types of a binary operator. */
  function OperandTypes(op: BinOp): set<(Type, Type)> {
    match op
    case LogicOr => BOOLS
    case LogicAnd => BOOLS
    case Equal => NUMBERS + BOOLS
    case NotEqual => NUMBERS + BOOLS
    case _ => NUMBERS
  }

  /** Branch types of a ternary, which are also the types a cast converts between. */
  const BRANCHES := NUMBERS + BOOLS

  /** A binary expression is accepted for exactly the operand types of its table; it is a bool for logical
      operators and comparisons, and an int for all others, also on chars. */
  lemma {:induction false} BinaryExact(op: BinOp, l: Expr, r: Expr, fr: Frame)
    ensures WellTyped(Binary(op, l, r), fr) <==>
      WellTyped(l, fr) && WellTyped(r, fr) && (TypeOf(l), TypeOf(r)) in OperandTypes(op)
    ensures TypeOf(Binary(op, l, r)) ==
      if op in {LogicOr, LogicAnd, Equal, NotEqual, Less, LessEqual, Greater, GreaterEqual} then TBool else TInt
  {
  }

  /** Signs and complement take numbers to ints, negation takes bools to bools, steps numbers to themselves. */
  lemma {:induction false} UnaryExact(op: UnOp, x: Expr, prefix: bool, up: bool, slot: int, t: Type, fr: Frame)
    ensures WellTyped(Unary(op, x), fr) <==>
      WellTyped(x, fr) && (if op == LogicNot then TypeOf(x) == TBool else TypeOf(x) in {TInt, TChar})
    ensures TypeOf(Unary(op, x)) == if op == LogicNot then TBool else TInt
    ensures WellTyped(IncDec(prefix, up, slot, t), fr) <==> SlotOk(slot, fr) && t in {TInt, TChar}
    ensures TypeOf(IncDec(prefix, up, slot, t)) == t
  {
  }

  /** A ternary takes two numbers or two bools. With a char on either side it is a char. */
  lemma {:induction false} TernaryExact(c: Expr, t: Expr, f: Expr, fr: Frame)
    ensures WellTyped(Ternary(c, t, f), fr) <==>
      WellTyped(c, fr) && WellTyped(t, fr) && WellTyped(f, fr) && TypeOf(c) == TBool
        && (TypeOf(t), TypeOf(f)) in BRANCHES
    ensures (TypeOf(t), TypeOf(f)) in BRANCHES ==>
      TypeOf(Ternary(c, t, f)) == if TypeOf(t) == TypeOf(f) then TypeOf(t) else TChar
  {
  }

  lemma {:induction false} CastExact(ty: Type, x: Expr, fr: Frame)
    ensures WellTyped(Cast(ty, x), fr) <==> WellTyped(x, fr) && (ty, TypeOf(x)) in BRANCHES
  {
  }

  /** Without a cast only a char may stand for another type, an int. */
  lemma {:induction false} ConversionExact(a: Type, b: Type)
    ensures Converts(a, b) <==> (a, b) in {(TInt, TInt), (TBool, TBool), (TChar, TChar), (TChar, TInt)}
    ensures Convertible(a, b) <==> (a, b) in BRANCHES
    ensures Converts(a, b) ==> Convertible(a, b)
  {
  }

  // ---------------------------------------------------------------- the domain of the code generator

  /** No complement, and no sign in front of a char. */
  predicate Plain(e: Expr) {
    match e
    case Unary(op, x) => op != BitwiseNot && (op == LogicNot || TypeOf(x) == TInt) && Plain(x)
    case Binary(_, l, r) => Plain(l) && Plain(r)
    case Ternary(c, t, f) => Plain(c) && Plain(t) && Plain(f)
    case Cast(_, x) => Plain(x)
    case _ => true
  }

  predicate PlainStm(s: Stm) {
    match s
    case VarDecl(_, _, init) => init.Some? ==> Plain(init.value)
    case Assign(_, _, e) => Plain(e)
    case OpAssign(_, _, _, e) => Plain(e)
    case Block(ss) => PlainBlock(ss)
    case If(c, thn, els) => Plain(c) && PlainBlock(thn) && (els.Some? ==> PlainStm(els.value))
    case While(c, ss) => Plain(c) && PlainBlock(ss)
    case For(_, _, a, b, step, ss) => Plain(a) && Plain(b) && (step.Some? ==> Plain(step.value)) && PlainBlock(ss)
    case Return(e, _) => e.Some? ==> Plain(e.value)
    case _ => true
  }

  predicate PlainBlock(ss: seq<Stm>) {
    forall i | 0 <= i < |ss| :: PlainStm(ss[i])
  }

  lemma {:induction false} PlainIsClean(e: Expr, fr: Frame)
    requires Plain(e) && fr.dirty == {}
    ensures Clean(e, fr) && Sound(e, fr)
  {
    match e
    case Unary(_, x) => PlainIsClean(x, fr);
    case Binary(_, l, r) =>
      PlainIsClean(l, fr);
      PlainIsClean(r, fr);
    case Ternary(c, t, f) =>
      PlainIsClean(c, fr);
      PlainIsClean(t, fr);
      PlainIsClean(f, fr);
    case Cast(_, x) => PlainIsClean(x, fr);
    case _ =>
  }

  lemma {:induction false} PlainIsSound(s: Stm, fr: Frame)
    requires PlainStm(s) && fr.dirty == {}
    ensures SoundStm(s, fr)
    decreases s, 1
  {
    hide Clean, Sound, Plain;
    match s
    case VarDecl(_, _, init) => if init.Some? { PlainIsClean(init.value, fr); }
    case Assign(_, _, e) => PlainIsClean(e, fr);
    case OpAssign(_, _, _, e) => PlainIsClean(e, fr);
    case Block(ss) => BlockIsSound(ss, fr);
    case If(c, thn, els) =>
      PlainIsClean(c, fr);
      BlockIsSound(thn, fr);
      if els.Some? { PlainIsSound(els.value, fr); }
    case While(c, ss) =>
      PlainIsClean(c, fr);
      BlockIsSound(ss, fr);
    case For(_, _, a, b, step, ss) =>
      PlainIsClean(a, fr);
      PlainIsClean(b, fr);
      if step.Some? { PlainIsClean(step.value, fr); }
      BlockIsSound(ss, fr);
    case Return(e, _) => if e.Some? { PlainIsClean(e.value, fr); }
    case _ =>
  }

  lemma {:induction false} BlockIsSound(ss: seq<Stm>, fr: Frame)
    requires PlainBlock(ss) && fr.dirty == {}
    ensures SoundBlock(ss, fr)
    decreases ss, 0
  {
    hide SoundStm, PlainStm;
    forall i | 0 <= i < |ss|
      ensures SoundStm(ss[i], fr)
    {
      PlainIsSound(ss[i], fr);
    }
  }

  // ---------------------------------------------------------------- operands

  /** Nesting of operators in an expression. */
  function Depth(e: Expr): nat {
    match e
    case Unary(_, x) => 1 + Depth(x)
    case Binary(_, l, r) => 1 + Max(Depth(l), Depth(r))
    case Ternary(c, t, f) => 1 + Max(Depth(c), Max(Depth(t), Depth(f)))
    case Cast(_, x) => 1 + Depth(x)
    case _ => 0
  }

  /** An expression needs one operand for each level of nesting, and up to four at its leaves. */
  lemma {:induction false} NeedBounded(e: Expr)
    ensures Need(e) <= 4 + Depth(e)
  {
    match e
    case Unary(_, x) => NeedBounded(x);
    case Binary(_, l, r) =>
      NeedBounded(l);
      NeedBounded(r);
    case Ternary(c, t, f) =>
      NeedBounded(c);
      NeedBounded(t);
      NeedBounded(f);
    case Cast(_, x) => NeedBounded(x);
    case _ =>
  }

  /** Nesting of range loops and of the operators inside them. */
  function StmDepth(s: Stm): nat
    decreases s, 1
  {
    match s
    case VarDecl(_, _, init) => if init.Some? then Depth(init.value) else 0
    case Assign(_, _, e) => Depth(e)
    case OpAssign(_, _, _, e) => 1 + Depth(e)
    case Block(ss) => BlockDepth(ss)
    case If(c, thn, els) => Max(Depth(c), Max(BlockDepth(thn), if els.Some? then StmDepth(els.value) else 0))
    case While(c, ss) => Max(Depth(c), BlockDepth(ss))
    case For(_, _, a, b, step, ss) =>
      5 + Max(Max(Depth(a), Depth(b)), Max(if step.Some? then Depth(step.value) else 0, BlockDepth(ss)))
    case Return(e, _) => if e.Some? then Depth(e.value) else 0
    case _ => 0
  }

  function BlockDepth(ss: seq<Stm>): nat
    decreases ss, 0
  {
    if ss == [] then 0 else Max(StmDepth(ss[0]), BlockDepth(ss[1..]))
  }

  lemma {:induction false} StmNeedBounded(s: Stm)
    ensures NeedStm(s) <= 5 + StmDepth(s)
    decreases s, 1
  {
    hide Need, Depth;
    match s
    case VarDecl(_, _, init) => if init.Some? { NeedBounded(init.value); }
    case Assign(_, _, e) => NeedBounded(e);
    case OpAssign(_, _, op, e) =>
      NeedBounded(e);
      NeedPositive(e);
    case Block(ss) => BlockNeedBounded(ss);
    case If(c, thn, els) =>
      NeedBounded(c);
      BlockNeedBounded(thn);
      if els.Some? { StmNeedBounded(els.value); }
    case While(c, ss) =>
      NeedBounded(c);
      BlockNeedBounded(ss);
    case For(_, _, a, b, step, ss) =>
      NeedBounded(a);
      NeedBounded(b);
      if step.Some? { NeedBounded(step.value); }
      BlockNeedBounded(ss);
    case Return(e, _) => if e.Some? { NeedBounded(e.value); }
    case _ =>
  }

  lemma {:induction false} BlockNeedBounded(ss: seq<Stm>)
    ensures NeedBlock(ss) <= 5 + BlockDepth(ss)
    decreases ss, 0
  {
    hide NeedStm, StmDepth;
    if ss != [] {
      StmNeedBounded(ss[0]);
      BlockNeedBounded(ss[1..]);
    }
  }

  /** Every well-typed program without complements and without signs on chars, with at most 510 locals a block, and
      not nested deeper than a thousand levels, is in the domain of the results on whole programs. */
  lemma {:induction false} PlainProgramOk(ms: seq<ScopeMethod>)
    requires forall i | 0 <= i < |ms| ::
      && WellTypedStm(ms[i].body, Frame(0, ms[i].locals, {}), Place(false, false)) && PlainStm(ms[i].body)
      && ms[i].locals <= 510 && StmDepth(ms[i].body) <= 1000
    ensures ProgramOk(ms)
  {
    hide WellTypedStm, PlainStm, SoundStm, NeedStm, StmDepth;
    forall i | 0 <= i < |ms|
      ensures MethodOk(ms[i])
    {
      PlainIsSound(ms[i].body, Frame(0, ms[i].locals, {}));
      StmNeedBounded(ms[i].body);
      assert MethodFits(ms[i], {});
    }
  }

  // ---------------------------------------------------------------- one statement of every kind

  const ONE := IntLit(1)
  const COUNT := Local(-1, TInt)
  const FLAG := Local(-2, TBool)

  /** Accepted at the top level with two slots, and in the domain. */
  predicate Fine(s: Stm) {
    WellTypedStm(s, Frame(0, 2, {}), Place(false, false)) && PlainStm(s) && StmDepth(s) <= 100
  }

  lemma {:induction false} DeclarationsFine()
    ensures Fine(VarDecl(-1, TInt, Some(CharLit(97)))) && Fine(VarDecl(-2, TBool, None)) && Fine(Bump(false, -1, TInt))
  {
  }

  lemma {:induction false} AssignmentFine()
    ensures Fine(Assign(-2, TBool, Binary(Less, COUNT, Cast(TChar, ONE))))
  {
    assert Depth(COUNT) == 0 && Depth(ONE) == 0 && Depth(Cast(TChar, ONE)) == 1;
  }

  lemma {:induction false} CompoundAssignmentFine()
    ensures Fine(OpAssign(-1, TInt, Plus, Ternary(FLAG, ONE, IncDec(true, true, -1, TInt))))
  {
    assert Depth(ONE) == 0 && Depth(FLAG) == 0 && Depth(IncDec(true, true, -1, TInt)) == 0;
  }

  lemma {:induction false} RepetitionFine()
    ensures Fine(While(Unary(LogicNot, FLAG), [If(FLAG, [Break], Some(Continue))]))
  {
    var inner := If(FLAG, [Break], Some(Continue));
    assert BlockDepth([Break]) == 0 && StmDepth(inner) == 0 && BlockDepth([inner]) == 0;
    assert Depth(Unary(LogicNot, FLAG)) == 1;
    var fr, pl := Frame(0, 2, {}), Place(true, false);
    assert WellTyped(FLAG, fr) && WellTypedBlock([Break], fr, pl) && WellTypedStm(inner, fr, pl);
    assert WellTypedBlock([inner], fr, pl) && PlainStm(inner);
  }

  lemma {:induction false} CountingFine()
    ensures Fine(For(-1, TInt, ONE, CharLit(98), Some(Unary(UMinus, ONE)), [Continue, Break]))
  {
    assert [Continue, Break][1..] == [Break];
    assert BlockDepth([Break]) == 0 && BlockDepth([Continue, Break]) == 0 && Depth(Unary(UMinus, ONE)) == 1;
  }

  /** Statements may follow each other and stand in branches. */
  lemma {:induction false} FineTogether(a: Stm, b: Stm)
    requires Fine(a) && Fine(b)
    ensures Fine(Block([a, b])) && Fine(If(FLAG, [a], Some(b))) && Fine(If(FLAG, [a], None))
  {
    hide StmDepth, WellTypedStm, PlainStm;
    assert [a, b][1..] == [b] && [a][1..] == [] && [b][1..] == [];
    assert BlockDepth([a]) == StmDepth(a) && BlockDepth([b]) == StmDepth(b);
    assert BlockDepth([a, b]) == Max(StmDepth(a), StmDepth(b));
    BlockFine([a, b]);
    BranchesFine(a, b);
  }

  lemma {:induction false} BlockFine(ss: seq<Stm>)
    requires (forall i | 0 <= i < |ss| :: Fine(ss[i])) && BlockDepth(ss) <= 100
    ensures Fine(Block(ss))
  {
    hide BlockDepth;
    var fr, pl := Frame(0, 2, {}), Place(false, false);
    assert WellTypedBlock(ss, fr, pl);
    assert PlainBlock(ss);
    assert WellTypedStm(Block(ss), fr, pl);
    assert PlainStm(Block(ss));
    assert StmDepth(Block(ss)) == BlockDepth(ss);
  }

  lemma {:induction false} BranchesFine(a: Stm, b: Stm)
    requires Fine(a) && Fine(b) && BlockDepth([a]) == StmDepth(a)
    ensures Fine(If(FLAG, [a], Some(b))) && Fine(If(FLAG, [a], None))
  {
    hide BlockDepth;
    var fr, pl := Frame(0, 2, {}), Place(false, false);
    assert WellTypedBlock([a], fr, pl) && PlainBlock([a]) && WellTyped(FLAG, fr) && Depth(FLAG) == 0;
    assert WellTypedStm(If(FLAG, [a], Some(b)), fr, pl) && WellTypedStm(If(FLAG, [a], None), fr, pl);
  }
}
