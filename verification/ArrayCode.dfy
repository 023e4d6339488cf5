/** The code AssemblyGenerator emits for arrays, as functions; CodeGen.dfy has the scalar part. */
module ArrayCode {
  import opened Isa
  import opened Source
  import opened CodeGen

  // ---------------------------------------------------------------- index chains

  /** compileArrayIndex around the code of the index: [array] becomes [element address]. */
  function IndexTemplate(n: nat, ty: Type, code: Asm): Asm {
    Ins(Dup(0), Ins(Load(UI32), Seq(code, CheckIndex(IndexOut(n), IndexInside(n), ty))))
  }

  function IndexOut(n: nat): Label {
    CodeLabel(IndexOutOfRangeKind, n)
  }

  function IndexInside(n: nat): Label {
    CodeLabel(IndexInRangeKind, n + 1)
  }

  /** From [array, length, index] on. */
  function CheckIndex(out: Label, inside: Label, ty: Type): Asm {
    Ins(Dup(0), Ins(Push(AsmTy(ty), 0), Ins(Arith(CLT), Ins(Jnz(out), ConvIf(ty, TChar, CheckUpper(out, inside))))))
  }

  function CheckUpper(out: Label, inside: Label): Asm {
    Ins(Dup(1), Ins(Dup(1), Ins(Arith(CLE), Ins(Jnz(out), Ins(Jmp(inside), Landing(out, inside))))))
  }

  function Landing(out: Label, inside: Label): Asm {
    Def(out, Ins(Throw(ArrayIndexOutOfRange), Def(inside, IndexAddress)))
  }

  const IndexAddress: Asm :=
    Ins(Swap, Ins(Pop, Ins(Push(UI32, ELEMENT),
      Ins(Arith(MUL), Ins(Push(UI32, 4), Ins(Arith(ADD), Ins(Arith(ADD), Done)))))))

  function CodeIndex(e: Expr, n: nat): Asm {
    IndexTemplate(n, TypeOf(e), CodeExpr(e, n + 2))
  }

  /** The chain: between two indices the element, itself an array, is loaded. */
  function CodeIndices(es: seq<Expr>, n: nat): Asm
    decreases |es|
  {
    if es == [] then Done
    else if |es| == 1 then CodeIndex(es[0], n)
    else Seq(CodeIndex(es[0], n), Ins(Load(PTR), CodeIndices(es[1..], n + 2 + LabelsOf(es[0]))))
  }

  /** compileExprPostfix on an array variable. */
  function CodeElement(slot: int, es: seq<Expr>, ty: Type, k: nat): Asm {
    Ins(LoadL(PTR, slot), Seq(CodeIndices(es, k), Ins(Load(AsmTy(ty)), Done)))
  }

  /** compileStmAssignment with indices: the address first, then the value. */
  function CodeElementAssign(slot: int, es: seq<Expr>, ty: Type, e: Expr, k: nat): Asm {
    Ins(LoadL(PTR, slot), Seq(CodeIndices(es, k),
      Seq(CodeExpr(e, k + LabelsOfIndices(es)), ConvIf(TypeOf(e), ty, Ins(Store, Done)))))
  }

  function LabelsOfIndices(es: seq<Expr>): nat {
    if es == [] then 0 else 2 + LabelsOf(es[0]) + LabelsOfIndices(es[1..])
  }

  // ---------------------------------------------------------------- allocation

  /** From [length] to [array]: ask for the block and put the length in front. */
  function AllocHead(rest: Asm): Asm {
    Ins(Dup(0), Ins(Push(UI32, ELEMENT), Ins(Arith(MUL), Ins(Push(UI32, 4), Ins(Arith(ADD), StoreLength(rest))))))
  }

  function StoreLength(rest: Asm): Asm {
    Ins(Alloc, Ins(Dup(0), Ins(RotD(3), Ins(Store, rest))))
  }

  /** From [array, rows left] to [array, rows left, address of the next element]. */
  function RowAddress(rest: Asm): Asm {
    Ins(Dup(1), Ins(Load(UI32), Ins(Dup(1), Ins(Arith(SUB), RowOffset(rest)))))
  }

  function RowOffset(rest: Asm): Asm {
    Ins(Push(UI32, ELEMENT), Ins(Arith(MUL), Ins(Push(UI32, 4), Ins(Arith(ADD), Ins(Dup(2), Ins(Arith(ADD), rest))))))
  }

  /** compileArrayAlloc for the given number of levels, at a recursion depth. */
  function CodeAlloc(levels: nat, depth: nat, n: nat): Asm
    decreases levels
  {
    if levels <= 1 then AllocHead(Done)
    else AllocHead(Ins(Dup(0), Ins(Load(UI32),
      Def(NestedStart(n), RowLoop(n, depth, CodeAlloc(levels - 1, depth + 1, n + 2))))))
  }

  function NestedStart(n: nat): Label {
    CodeLabel(NestedStartKind, n)
  }

  function NestedEnd(n: nat): Label {
    CodeLabel(NestedEndKind, n + 1)
  }

  function RowLoop(n: nat, depth: nat, nested: Asm): Asm {
    Ins(Dup(0), Ins(Jez(NestedEnd(n)), RowAddress(Ins(Dup(4 * (depth + 1) - 1), Seq(nested, AfterRow(n))))))
  }

  function AfterRow(n: nat): Asm {
    Ins(Store, Ins(Push(UI32, 1), Ins(Arith(SUB), Ins(Jmp(NestedStart(n)), Def(NestedEnd(n), Ins(Pop, Done))))))
  }

  function LabelsOfAlloc(levels: nat): nat {
    if levels <= 1 then 0 else 2 + LabelsOfAlloc(levels - 1)
  }

  // ---------------------------------------------------------------- new

  function LengthCheck(n: nat, ty: Type): Asm {
    Ins(Dup(0), Ins(Push(AsmTy(ty), 0), Ins(Arith(CLT), Ins(Jez(LengthValid(n)), Ins(Throw(NegativeArrayLength),
      Def(LengthValid(n), ConvIf(ty, TChar, Done)))))))
  }

  function LengthValid(n: nat): Label {
    CodeLabel(LengthValidKind, n)
  }

  function CodeLengths(es: seq<Expr>, n: nat): Asm
    decreases |es|
  {
    if es == [] then Done
    else
      var e := es[|es| - 1];
      Seq(CodeExpr(e, n + 1), Seq(LengthCheck(n, TypeOf(e)), CodeLengths(es[..|es| - 1], n + 1 + LabelsOf(e))))
  }

  function LabelsOfLengths(es: seq<Expr>): nat {
    if es == [] then 0 else 1 + LabelsOf(es[|es| - 1]) + LabelsOfLengths(es[..|es| - 1])
  }

  /** compileExprNew without an initialiser. */
  function CodeNew(es: seq<Expr>, n: nat): Asm {
    Seq(CodeLengths(es, n), Seq(CodeAlloc(|es|, 0, n + LabelsOfLengths(es)), Cleanup(|es|)))
  }

  /** Bring the pointer below the lengths that are left, and drop those. */
  function Cleanup(levels: nat): Asm {
    if levels <= 1 then Done
    else if levels == 2 then Ins(Swap, Pops(1))
    else Ins(RotU(levels), Pops(levels - 1))
  }

  function Pops(n: nat): Asm {
    if n == 0 then Done else Ins(Pop, Pops(n - 1))
  }
}
