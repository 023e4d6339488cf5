/** The instruction set shared by the code generator, the assembler and the VM. */
module Isa {
  import opened Words

  datatype Ty = I32 | UI32 | I64 | UI64 | F32 | F64 | PTR

  datatype ErrorRef = ArrayIndexOutOfRange | NegativeArrayLength | ArrayInitialiserLength | ZeroRangeStep

  datatype ArithOp =
    | ADD | SUB | MUL | DIV | MOD | AND | ORR | XOR | SHL | SHR | SAR
    | CEQ | CNE | CLT | CLE | CGT | CGE

  /** One instruction. L is the type of a label operand: a `Label` in assembly, an address once resolved. */
  datatype Instr<L> =
    | Nop | Halt
    | Push(ty: Ty, imm: int) | PushLabel(target: L) | Pop | Dup(depth: nat) | Swap | RotD(depth: nat) | RotU(depth: nat)
    | Load(ty: Ty) | LoadB | LoadG(target: L) | LoadL(ty: Ty, offset: int)
    | Store | StoreB | StoreG(target: L) | StoreL(offset: int) | AddrL(offset: int) | Alloc | Free
    | Native(id: Byte) | Call(target: L) | Ret | Jmp(target: L) | Jez(target: L) | Jnz(target: L)
    | Arith(op: ArithOp) | Not | Conv(ty: Ty) | Throw(err: ErrorRef)

  datatype LabelKind =
    | LogicalNotTrueKind | LogicalNotEndKind | LogicalOrTrueKind | LogicalOrEndKind
    | LogicalAndFalseKind | LogicalAndEndKind | TernaryTrueKind | TernaryEndKind
    | IfEndKind | IfElseKind | WhileStartKind | WhileEndKind
    | ForStepValidKind | ForStartKind | ForNegativeStepConditionKind | ForConditionJoinKind
    | ForContinueKind | ForEndKind
    | IndexOutOfRangeKind | IndexInRangeKind | LengthValidKind | NestedStartKind | NestedEndKind

  /** A scope method is numbered, a user function carries its name. */
  datatype MethodName = Scope(number: nat) | Function(name: string)

  /** Labels live in three name spaces; a code label is a kind and the value of the label counter. */
  datatype Label =
    | CodeLabel(kind: LabelKind, id: nat)
    | MethodLabel(owner: MethodName)
    | DataLabel(name: string)

  datatype Fault =
    | DivisionByZero | Internal | OutOfMemory | StackOverflow | OutOfRange
    | IndexOutOfRange | NegativeLength | InitialiserLength | ZeroStep
    | Undefined    // undefined behaviour of the C++ source: INT_MIN // -1 and INT_MIN % -1
    | Unmodelled   // floating point, 64-bit arithmetic and native calls

  datatype Outcome<+T> = Ok(value: T) | Err(fault: Fault)
  {
    predicate IsFailure() {
      Err?
    }

    function PropagateFailure<U>(): Outcome<U>
      requires Err?
    {
      Err(fault)
    }

    function Extract(): T
      requires Ok?
    {
      value
    }
  }

  predicate IsWide(ty: Ty) {
    ty in {I64, UI64, F64}
  }

  /** Bytes of an immediate or a memory cell of a type. */
  function Width(ty: Ty): (n: nat)
    ensures n == 4 || n == 8
  {
    if IsWide(ty) then 8 else 4
  }

  /** Bytes an instruction occupies in the code section. */
  function Size<L>(i: Instr<L>): (n: nat)
    ensures 1 <= n <= 10
  {
    match i
    case Push(ty, _) => 2 + Width(ty)
    case PushLabel(_) => 6
    case Dup(_) => 3
    case RotD(_) => 3
    case RotU(_) => 3
    case Load(_) => 2
    case LoadL(_, _) => 6
    case LoadG(_) => 5
    case StoreG(_) => 5
    case StoreL(_) => 5
    case AddrL(_) => 5
    case Native(_) => 2
    case Call(_) => 5
    case Jmp(_) => 5
    case Jez(_) => 5
    case Jnz(_) => 5
    case Conv(_) => 2
    case Throw(_) => 2
    case _ => 1
  }

  /** Immediates the assembler accepts: it bounds the depths of dup, rotD and rotU. */
  predicate Encodable<L>(i: Instr<L>) {
    && (i.Dup? ==> i.depth <= 1023)
    && (i.RotD? ==> 3 <= i.depth <= 1024)
    && (i.RotU? ==> 3 <= i.depth <= 1024)
  }

  type Labels = map<Label, int>

  predicate LabelsKnown(i: Instr<Label>, labels: Labels) {
    (i.PushLabel? || i.LoadG? || i.StoreG? || i.Call? || i.Jmp? || i.Jez? || i.Jnz?) ==> i.target in labels
  }

  /** What the VM decodes from the bytes of an instruction: labels are addresses, immediates are raw
      bits of their width, frame offsets are signed words, and only the low byte of a depth survives. */
  function Resolve(i: Instr<Label>, labels: Labels): Instr<int>
    requires LabelsKnown(i, labels)
  {
    match i
    case Push(ty, imm) => Push(ty, if IsWide(ty) then imm % W64 else imm % W32)
    case PushLabel(l) => Push(PTR, labels[l] % W32)
    case Dup(d) => Dup(d % 256)
    case RotD(d) => RotD(d % 256)
    case RotU(d) => RotU(d % 256)
    case LoadL(ty, off) => LoadL(ty, Signed(ToWord(off)))
    case StoreL(off) => StoreL(Signed(ToWord(off)))
    case AddrL(off) => AddrL(Signed(ToWord(off)))
    case LoadG(l) => LoadG(labels[l] % W32)
    case StoreG(l) => StoreG(labels[l] % W32)
    case Call(l) => Call(labels[l] % W32)
    case Jmp(l) => Jmp(labels[l] % W32)
    case Jez(l) => Jez(labels[l] % W32)
    case Jnz(l) => Jnz(labels[l] % W32)
    case Nop => Nop
    case Halt => Halt
    case Pop => Pop
    case Swap => Swap
    case Load(ty) => Load(ty)
    case LoadB => LoadB
    case Store => Store
    case StoreB => StoreB
    case Alloc => Alloc
    case Free => Free
    case Native(id) => Native(id)
    case Ret => Ret
    case Arith(op) => Arith(op)
    case Not => Not
    case Conv(ty) => Conv(ty)
    case Throw(err) => Throw(err)
  }
}
