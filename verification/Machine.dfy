/** One step of `execute` over decoded instructions at byte addresses, on flat memory; PagedMachine.dfy is the VM on
    its pages. */
module Machine {
  import opened Words
  import opened Isa
  import opened FlatMemory
  import opened Arithmetic
  import opened Heap
  import opened Frames

  const MAX_OPERANDS := 1024

  datatype Header = Header(args: Byte, locals: int)

  /** What the bytes of the code region read as: an instruction when fetched, a method header when called. */
  datatype Code = Code(ops: map<int, Instr<int>>, headers: map<int, Header>)

  datatype Status = Running | Halted | Failed(fault: Fault)

  datatype State = State(
    pc: int,
    stack: seq<Value>,
    mem: Mem,
    fp: int,
    sp: int,
    hp: int,
    hb: int,
    dataStart: int,
    free: FreeList,
    frames: seq<FrameInfo>,
    status: Status)
  {
    function Calls(): CallState {
      CallState(mem, fp, sp, frames)
    }

    function HeapView(): HeapState {
      HeapState(mem, free, hp)
    }

    function Fail(f: Fault): State {
      this.(status := Failed(f))
    }
  }

  predicate InData(s: State, a: int) {
    s.dataStart <= a < s.hb
  }

  predicate InHeap(s: State, a: int) {
    s.hb <= a <= s.hp
  }

  predicate InCallStack(s: State, a: int) {
    a >= s.sp
  }

  /** The region a pointer may address: data, heap or call stack, never code. */
  predicate InPtr(s: State, a: int) {
    InData(s, a) || InHeap(s, a) || InCallStack(s, a)
  }

  function Top(s: State, n: nat): Value
    requires n < |s.stack|
  {
    s.stack[|s.stack| - 1 - n]
  }

  function Drop(s: State, n: nat): seq<Value>
    requires n <= |s.stack|
  {
    s.stack[..|s.stack| - n]
  }

  /** Replace the top n operands by one value, or fail as `push` on a full stack does. */
  function Push1(s: State, n: nat, v: Value): State
    requires n <= |s.stack|
  {
    if |s.stack| - n >= MAX_OPERANDS then s.Fail(Internal) else s.(stack := Drop(s, n) + [v])
  }

  function PushOutcome(s: State, n: nat, v: Outcome<Value>): State
    requires n <= |s.stack|
  {
    match v
    case Ok(x) => Push1(s, n, x)
    case Err(f) => s.Fail(f)
  }

  /** Execute one decoded instruction; pc already points past it. */
  function Execute(code: Code, s: State, i: Instr<int>): State {
    match i
    case Nop => s
    case Halt => s.(status := Halted)
    case Push(ty, imm) => if imm < 0 then s.Fail(Unmodelled) else Push1(s, 0, Value(ty, imm))
    case PushLabel(a) => if a < 0 then s.Fail(Unmodelled) else Push1(s, 0, Value(PTR, a))
    case Pop => if |s.stack| < 1 then s.Fail(Internal) else s.(stack := Drop(s, 1))
    case Dup(d) => if d >= |s.stack| then s.Fail(Internal) else Push1(s, 0, Top(s, d))
    case Swap => ExecSwap(s)
    case RotD(d) => ExecRotD(s, d)
    case RotU(d) => ExecRotU(s, d)
    case Load(ty) => ExecLoad(s, ty)
    case LoadB => ExecLoadB(s)
    case LoadG(a) => ExecLoadG(s, a)
    case LoadL(ty, off) => ExecLoadL(s, ty, off)
    case Store => ExecStore(s)
    case StoreB => ExecStoreB(s)
    case StoreG(a) => ExecStoreG(s, a)
    case StoreL(off) => ExecStoreL(s, off)
    case AddrL(off) => ExecAddrL(s, off)
    case Alloc => ExecAlloc(s)
    case Free => ExecFree(s)
    case Native(_) => s.Fail(Unmodelled)
    case Call(a) => ExecCall(code, s, a)
    case Ret => ExecRet(s)
    case Jmp(a) => s.(pc := a)
    case Jez(a) => ExecBranch(s, a, true)
    case Jnz(a) => ExecBranch(s, a, false)
    case Arith(op) => ExecArith(s, op)
    case Not => if |s.stack| < 1 then s.Fail(Internal) else PushOutcome(s, 1, BitNot(Top(s, 0)))
    case Conv(ty) => if |s.stack| < 1 then s.Fail(Internal) else PushOutcome(s, 1, ConvertTo(Top(s, 0), ty))
    case Throw(err) => ExecThrow(s, err)
  }

  function ExecSwap(s: State): State {
    if |s.stack| < 2 then s.Fail(Internal) else s.(stack := Drop(s, 2) + [Top(s, 0), Top(s, 1)])
  }

  /** The operand at the given depth comes to the top. */
  function ExecRotD(s: State, d: nat): State {
    if |s.stack| < d then s.Fail(Internal)
    else if d == 0 then s.Fail(Undefined)
    else s.(stack := Drop(s, d) + s.stack[|s.stack| - d + 1..] + [Top(s, d - 1)])
  }

  /** The top operand goes below the d - 1 others. */
  function ExecRotU(s: State, d: nat): State {
    if |s.stack| < d then s.Fail(Internal)
    else if d == 0 then s.Fail(Undefined)
    else s.(stack := Drop(s, d) + [Top(s, 0)] + s.stack[|s.stack| - d..|s.stack| - 1])
  }

  predicate IsAddress(v: Value) {
    v.ty == PTR || v.ty == UI32
  }

  function ReadTyped(m: Mem, a: int, ty: Ty): Value {
    Value(ty, if IsWide(ty) then Read64(m, a) else Read32(m, a))
  }

  function WriteTyped(m: Mem, a: int, v: Value): Mem {
    if IsWide(v.ty) then Write64(m, a, v.raw % W64) else Write32(m, a, Low(v))
  }

  function ExecLoad(s: State, ty: Ty): State {
    if |s.stack| < 1 || !IsAddress(Top(s, 0)) || !InPtr(s, Low(Top(s, 0))) then s.Fail(Internal)
    else Push1(s, 1, ReadTyped(s.mem, Low(Top(s, 0)), ty))
  }

  function ExecLoadB(s: State): State {
    if |s.stack| < 1 || !IsAddress(Top(s, 0)) || !InPtr(s, Low(Top(s, 0))) then s.Fail(Internal)
    else Push1(s, 1, Value(UI32, Get(s.mem, Low(Top(s, 0)))))
  }

  /** Type byte of a global: 0..6 in the order of `Ty`, 7 for a string. */
  function GlobalTy(b: Byte): Outcome<Ty> {
    if b < 7 then Ok([I32, UI32, I64, UI64, F32, F64, PTR][b]) else Err(Unmodelled)
  }

  function ExecLoadG(s: State, a: int): State {
    if !InData(s, ToWord(a - 1)) || !InData(s, a) then s.Fail(Internal)
    else
      match GlobalTy(Get(s.mem, a - 1))
      case Ok(ty) => Push1(s, 0, ReadTyped(s.mem, a, ty))
      case Err(f) => s.Fail(f)
  }

  function ExecLoadL(s: State, ty: Ty, off: int): State {
    match SlotAddress(s.Calls(), off)
    case Ok(a) => if !InCallStack(s, a) then s.Fail(Internal) else Push1(s, 0, Value(ty, Read64(s.mem, a)))
    case Err(f) => s.Fail(f)
  }

  function ExecStore(s: State): State {
    if |s.stack| < 2 || !IsAddress(Top(s, 1)) || !InPtr(s, Low(Top(s, 1))) then s.Fail(Internal)
    else s.(stack := Drop(s, 2), mem := WriteTyped(s.mem, Low(Top(s, 1)), Top(s, 0)))
  }

  function ExecStoreB(s: State): State {
    if |s.stack| < 2 || !IsInteger(Top(s, 0).ty) || !IsAddress(Top(s, 1)) || !InPtr(s, Low(Top(s, 1)))
    then s.Fail(Internal)
    else s.(stack := Drop(s, 2), mem := Write8(s.mem, Low(Top(s, 1)), Top(s, 0).raw % 256))
  }

  function ExecStoreG(s: State, a: int): State {
    if |s.stack| < 1 || !InData(s, ToWord(a - 1)) || !InData(s, a) then s.Fail(Internal)
    else if GlobalTy(Get(s.mem, a - 1)) != Ok(Top(s, 0).ty) then s.Fail(Internal)
    else s.(stack := Drop(s, 1), mem := WriteTyped(s.mem, a, Top(s, 0)))
  }

  function ExecStoreL(s: State, off: int): State {
    if |s.stack| < 1 then s.Fail(Internal)
    else
      match SlotAddress(s.Calls(), off)
      case Ok(a) =>
        if !InCallStack(s, a) then s.Fail(Internal)
        else s.(stack := Drop(s, 1), mem := Write64(s.mem, a, Top(s, 0).raw % W64))
      case Err(f) => s.Fail(f)
  }

  function ExecAddrL(s: State, off: int): State {
    match SlotAddress(s.Calls(), off)
    case Ok(a) => Push1(s, 0, Value(PTR, a))
    case Err(f) => s.Fail(f)
  }

  function ExecAlloc(s: State): State {
    if |s.stack| < 1 || Top(s, 0).ty != UI32 then s.Fail(Internal)
    else
      match Allocate(s.HeapView(), Low(Top(s, 0)), s.sp)
      case Ok((h, a)) => Push1(s, 1, Value(PTR, ToWord(a))).(mem := h.mem, free := h.free, hp := h.hp)
      case Err(f) => s.Fail(f)
  }

  function ExecFree(s: State): State {
    if |s.stack| < 1 || Top(s, 0).ty != PTR || !InHeap(s, ToWord(Low(Top(s, 0)) - HEADER)) then s.Fail(Internal)
    else s.(stack := Drop(s, 1), free := Deallocate(s.HeapView(), Low(Top(s, 0))).free)
  }

  /** Raw arguments in pop order. */
  function PopArgs(s: State, n: nat): (r: seq<int>)
    requires n <= |s.stack|
    ensures |r| == n
  {
    seq(n, i requires 0 <= i < n => Top(s, i).raw % W64)
  }

  function ExecCall(code: Code, s: State, a: int): State {
    if a !in code.headers then s.Fail(Unmodelled)
    else
      var n := code.headers[a].args;
      if |s.stack| < n then s.Fail(Internal)
      else
        match Enter(s.Calls(), s.hp, FrameInfo(n, code.headers[a].locals), PopArgs(s, n), s.pc)
        case Ok(c) => s.(pc := a + 5, stack := Drop(s, n), mem := c.mem, fp := c.fp, sp := c.sp, frames := c.frames)
        case Err(f) => s.Fail(f)
  }

  function ExecRet(s: State): State {
    match Leave(s.Calls())
    case Ok((c, ra)) => s.(pc := ra, fp := c.fp, sp := c.sp, frames := c.frames)
    case Err(f) => s.Fail(f)
  }

  function ExecBranch(s: State, a: int, onZero: bool): State {
    if |s.stack| < 1 then s.Fail(Internal)
    else if IsZero(Top(s, 0)) == onZero then s.(pc := a, stack := Drop(s, 1))
    else s.(stack := Drop(s, 1))
  }

  /** Division and remainder test the divisor before anything else. */
  function ExecArith(s: State, op: ArithOp): State {
    if |s.stack| < 2 then s.Fail(Internal)
    else if op in {DIV, MOD} && IsZero(Top(s, 0)) then s.Fail(DivisionByZero)
    else PushOutcome(s, 2, Apply(op, Top(s, 1), Top(s, 0)))
  }

  function ExecThrow(s: State, err: ErrorRef): State {
    match err
    case ArrayIndexOutOfRange =>
      if |s.stack| < 2 || !IsInteger(Top(s, 0).ty) || Top(s, 1).ty != UI32 then s.Fail(Internal)
      else s.Fail(IndexOutOfRange)
    case NegativeArrayLength =>
      if |s.stack| < 1 || !IsInteger(Top(s, 0).ty) then s.Fail(Internal) else s.Fail(NegativeLength)
    case ArrayInitialiserLength =>
      if |s.stack| < 1 || Top(s, 0).ty != UI32 then s.Fail(Internal) else s.Fail(InitialiserLength)
    case ZeroRangeStep => s.Fail(ZeroStep)
  }

  /** Fetch, advance pc, execute. Addresses that hold no instruction are not modelled. */
  function Step(code: Code, s: State): State {
    if s.status != Running then s
    else if s.pc !in code.ops then s.Fail(Unmodelled)
    else
      var i := code.ops[s.pc];
      Execute(code, s.(pc := s.pc + Size(i)), i)
  }

  function Run(code: Code, s: State, k: nat): State
    decreases k
  {
    if k == 0 then s else Run(code, Step(code, s), k - 1)
  }

  lemma {:induction false} RunPlus(code: Code, s: State, j: nat, k: nat)
    ensures Run(code, Run(code, s, j), k) == Run(code, s, j + k)
    decreases j
  {
    if j > 0 {
      RunPlus(code, Step(code, s), j - 1, k);
    }
  }

  /** A machine that has stopped stays as it is. */
  lemma {:induction false} StoppedStays(code: Code, s: State, j: nat, k: nat)
    requires j <= k && Run(code, s, j).status != Running
    ensures Run(code, s, k) == Run(code, s, j)
  {
    RunPlus(code, s, j, k - j);
    Stays(code, Run(code, s, j), k - j);
  }

  lemma {:induction false} Stays(code: Code, s: State, k: nat)
    requires s.status != Running
    ensures Run(code, s, k) == s
  {
    if k > 0 {
      Stays(code, s, k - 1);
    }
  }
}
