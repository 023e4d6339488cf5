/** The VM as it runs: an object whose instructions are fetched from memory and pop, push and store in place.
    PagedMachine.dfy is its specification: one step there is all the fetches, pops, checks and pushes here. */
module VirtualMachine {
  import opened Words
  import opened Isa
  import opened FlatMemory
  import opened Arithmetic
  import opened Frames
  import opened Machine
  import opened Encoding
  import opened Pages
  import opened Accesses
  import opened Fetching
  import opened PagedMachine
  import opened Source
  import Heap
  import Program

  class VM {
    var PC: int
    var FP: int
    var SP: int
    var HB: int
    var HP: int
    var dataStart: int
    var operandStack: seq<Value>
    var mem: Mem
    var free: Heap.FreeList
    var frameInfoStack: seq<FrameInfo>
    var running: bool

    /** The registers after readBytecode and initialiseHeap. */
    constructor (mem: Mem, dataStart: int, hb: int)
      ensures Valid() && View() == Program.Initial(mem, dataStart, hb)
    {
      PC, FP, SP, HB, HP := 0, MAX_ADDR, MAX_ADDR, hb, hb;
      this.dataStart, this.mem := dataStart, mem;
      operandStack, free, frameInfoStack, running := [], Heap.InitialList(hb), [], true;
    }

    ghost predicate Valid()
      reads this
    {
      |operandStack| <= MAX_OPERANDS
    }

    function View(): State
      reads this
    {
      State(PC, operandStack, mem, FP, SP, HP, HB, dataStart, free, frameInfoStack, if running then Running else Halted)
    }

    /** The object has become the given state, or has raised the fault with which that state has failed. */
    ghost predicate Became(u: State, r: Outcome<()>)
      reads this
    {
      match r
      case Ok(_) => Valid() && View() == u
      case Err(f) => u.status == Failed(f)
    }

    // -------------------------------------------------------------- the operand stack

    method PopOperand() returns (r: Outcome<Value>)
      requires Valid()
      modifies this`operandStack
      ensures Valid()
      ensures if |old(operandStack)| == 0 then r == Err(Internal)
              else r == Ok(Top(old(View()), 0)) && operandStack == Drop(old(View()), 1)
    {
      if |operandStack| == 0 {
        return Err(Internal);
      }
      r := Ok(operandStack[|operandStack| - 1]);
      operandStack := operandStack[..|operandStack| - 1];
    }

    method PushOperand(v: Value) returns (r: Outcome<()>)
      requires Valid()
      modifies this`operandStack
      ensures Valid()
      ensures if |old(operandStack)| == MAX_OPERANDS then r == Err(Internal)
              else r.Ok? && operandStack == old(operandStack) + [v]
    {
      if |operandStack| == MAX_OPERANDS {
        return Err(Internal);
      }
      operandStack := operandStack + [v];
      r := Ok(());
    }

    // -------------------------------------------------------------- stack instructions

    method ExecuteNop() returns (r: Outcome<()>)
      requires Valid() && running
      ensures Became(old(View()), r)
    {
      r := Ok(());
    }

    method ExecuteHalt() returns (r: Outcome<()>)
      requires Valid() && running
      modifies this`running
      ensures Became(old(View()).(status := Halted), r)
    {
      running := false;
      r := Ok(());
    }

    method ExecutePop() returns (r: Outcome<()>)
      requires Valid() && running
      modifies this`operandStack
      ensures Became(Execute(NO_CODE, old(View()), Pop), r)
    {
      var _ :- PopOperand();
      r := Ok(());
    }

    method ExecutePush(ty: Ty, imm: int) returns (r: Outcome<()>)
      requires Valid() && running
      modifies this`operandStack
      ensures Became(Execute(NO_CODE, old(View()), Push(ty, imm)), r)
    {
      if imm < 0 {
        return Err(Unmodelled);
      }
      r := PushOperand(Value.Value(ty, imm));
    }

    method ExecuteDup(depth: nat) returns (r: Outcome<()>)
      requires Valid() && running
      modifies this`operandStack
      ensures Became(Execute(NO_CODE, old(View()), Dup(depth)), r)
    {
      if depth >= |operandStack| {
        return Err(Internal);
      }
      r := PushOperand(operandStack[|operandStack| - 1 - depth]);
    }

    method ExecuteSwap() returns (r: Outcome<()>)
      requires Valid() && running
      modifies this`operandStack
      ensures Became(ExecSwap(old(View())), r)
    {
      var y :- PopOperand();
      var x :- PopOperand();
      r := PushOperand(y);
      assert r.Ok?;
      r := PushOperand(x);
    }

    /** The top n operands in pop order; none but the popped ones are missing afterwards. */
    method PopOperands(n: nat) returns (r: Outcome<seq<Value>>)
      requires Valid()
      modifies this`operandStack
      ensures Valid()
      ensures |old(operandStack)| < n ==> r == Err(Internal)
      ensures |old(operandStack)| >= n ==> r.Ok? && operandStack == Drop(old(View()), n) && |r.value| == n
      ensures |old(operandStack)| >= n ==> forall i | 0 <= i < n :: r.value[i] == Top(old(View()), i)
    {
      var values := [];
      for i := 0 to n
        invariant Valid() && i <= |old(operandStack)| && operandStack == Drop(old(View()), i)
        invariant |values| == i && forall j | 0 <= j < i :: values[j] == Top(old(View()), j)
      {
        var value :- PopOperand();
        values := values + [value];
      }
      r := Ok(values);
    }

    /** values[hi - 1], ..., values[lo] go back, which restores their order on the stack. */
    method PushBack(values: seq<Value>, lo: nat, hi: nat) returns (r: Outcome<()>)
      requires Valid() && lo <= hi <= |values| && |operandStack| + hi - lo <= MAX_OPERANDS
      modifies this`operandStack
      ensures Valid() && r.Ok? && operandStack == old(operandStack) + Backwards(values[lo..hi])
    {
      var i := hi;
      assert values[hi..hi] == [];
      while i > lo
        invariant lo <= i <= hi && |operandStack| + i - lo <= MAX_OPERANDS
        invariant operandStack == old(operandStack) + Backwards(values[i..hi])
      {
        assert values[i - 1..hi][0] == values[i - 1] && values[i - 1..hi][1..] == values[i..hi];
        r := PushOperand(values[i - 1]);
        assert r.Ok?;
        i := i - 1;
      }
      r := Ok(());
    }

    method ExecuteRotD(depth: nat) returns (r: Outcome<()>)
      requires Valid() && running
      modifies this`operandStack
      ensures Became(ExecRotD(old(View()), depth), r)
    {
      ghost var s := View();
      var values :- PopOperands(depth);
      if depth == 0 {
        return Err(Undefined);
      }
      r := PushBack(values, 0, depth - 1);
      RotatedDown(s, values);
      r := PushOperand(values[depth - 1]);
    }

    method ExecuteRotU(depth: nat) returns (r: Outcome<()>)
      requires Valid() && running
      modifies this`operandStack
      ensures Became(ExecRotU(old(View()), depth), r)
    {
      ghost var s := View();
      var values :- PopOperands(depth);
      if depth == 0 {
        return Err(Undefined);
      }
      r := PushOperand(values[0]);
      r := PushBack(values, 1, depth);
      RotatedUp(s, values);
    }

    // -------------------------------------------------------------- memory instructions

    method ExecuteLoad(ty: Ty) returns (r: Outcome<()>)
      requires Valid() && running
      modifies this`operandStack
      ensures Became(PagedLoad(old(View()), ty), r)
    {
      hide PagedRead;
      var address :- PopOperand();
      if !IsAddress(address) || !InPtr(View(), Low(address)) {
        return Err(Internal);
      }
      r := PushOperand(Value.Value(ty, PagedRead(mem, Low(address), Width(ty))));
    }

    method ExecuteLoadB() returns (r: Outcome<()>)
      requires Valid() && running
      modifies this`operandStack
      ensures Became(ExecLoadB(old(View())), r)
    {
      var address :- PopOperand();
      if !IsAddress(address) || !InPtr(View(), Low(address)) {
        return Err(Internal);
      }
      r := PushOperand(Value.Value(UI32, Get(mem, Low(address))));
    }

    method ExecuteLoadG(a: int) returns (r: Outcome<()>)
      requires Valid() && running
      modifies this`operandStack
      ensures Became(PagedLoadG(old(View()), a), r)
    {
      hide PagedRead;
      if !InData(View(), ToWord(a - 1)) || !InData(View(), a) {
        return Err(Internal);
      }
      var ty :- GlobalTy(Get(mem, a - 1));
      r := PushOperand(Value.Value(ty, PagedRead(mem, a, Width(ty))));
    }

    method ExecuteLoadL(ty: Ty, off: int) returns (r: Outcome<()>)
      requires Valid() && running
      modifies this`operandStack
      ensures Became(PagedLoadL(old(View()), ty, off), r)
    {
      hide PagedRead;
      var a :- SlotAddress(View().Calls(), off);
      if !InCallStack(View(), a) {
        return Err(Internal);
      }
      r := PushOperand(Value.Value(ty, PagedRead(mem, a, 8)));
    }

    method ExecuteStore() returns (r: Outcome<()>)
      requires Valid() && running
      modifies this`operandStack, this`mem
      ensures Became(PagedStore(old(View()), Store), r)
    {
      hide InOnePage, WriteTyped;
      ghost var s := View();
      var value :- PopOperand();
      var address :- PopOperand();
      if !IsAddress(address) || !InPtr(View(), Low(address)) {
        return Err(Internal);
      }
      OnePage(WriteAt(Low(address), value.raw, Width(value.ty)));
      if !InOnePage(Low(address), Width(value.ty)) {
        return Err(Undefined);
      }
      mem := WriteTyped(mem, Low(address), value);
      r := Ok(());
    }

    method ExecuteStoreB() returns (r: Outcome<()>)
      requires Valid() && running
      modifies this`operandStack, this`mem
      ensures Became(ExecStoreB(old(View())), r)
    {
      var value :- PopOperand();
      if !IsInteger(value.ty) {
        return Err(Internal);
      }
      var address :- PopOperand();
      if !IsAddress(address) || !InPtr(View(), Low(address)) {
        return Err(Internal);
      }
      mem := Write8(mem, Low(address), value.raw % 256);
      r := Ok(());
    }

    method ExecuteStoreG(a: int) returns (r: Outcome<()>)
      requires Valid() && running
      modifies this`operandStack, this`mem
      ensures Became(PagedStore(old(View()), StoreG(a)), r)
    {
      hide InOnePage, WriteTyped;
      TypeByte(a - 1);
      var value :- PopOperand();
      if !InData(View(), ToWord(a - 1)) || GlobalTy(Get(mem, a - 1)) != Ok(value.ty) || !InData(View(), a) {
        return Err(Internal);
      }
      BothPages(ReadAt(a - 1, 1), WriteAt(a, value.raw, Width(value.ty)));
      if !InOnePage(a, Width(value.ty)) {
        return Err(Undefined);
      }
      mem := WriteTyped(mem, a, value);
      r := Ok(());
    }

    method ExecuteStoreL(off: int) returns (r: Outcome<()>)
      requires Valid() && running
      modifies this`operandStack, this`mem
      ensures Became(PagedStore(old(View()), StoreL(off)), r)
    {
      hide InOnePage, Write64, SlotAddress;
      var value :- PopOperand();
      var a :- SlotAddress(View().Calls(), off);
      if !InCallStack(View(), a) {
        return Err(Internal);
      }
      OnePage(WriteAt(a, value.raw, 8));
      if !InOnePage(a, 8) {
        return Err(Undefined);
      }
      mem := Write64(mem, a, value.raw % W64);
      r := Ok(());
    }

    method ExecuteAddrL(off: int) returns (r: Outcome<()>)
      requires Valid() && running
      modifies this`operandStack
      ensures Became(ExecAddrL(old(View()), off), r)
    {
      var a :- SlotAddress(View().Calls(), off);
      r := PushOperand(Value.Value(PTR, a));
    }

    method ExecuteAlloc() returns (r: Outcome<()>)
      requires Valid() && running
      modifies this`operandStack, this`mem, this`free, this`HP
      ensures Became(PagedStore(old(View()), Alloc), r)
    {
      hide Heap.Allocate, AllocWrites;
      ghost var s := View();
      var value :- PopOperand();
      assert s.HeapView() == View().HeapView();
      if !InPages(AllocWrites(View().HeapView(), Low(value), SP)) {
        return Err(Undefined);
      }
      if value.ty != UI32 {
        return Err(Internal);
      }
      var block :- Heap.Allocate(View().HeapView(), Low(value), SP);
      var (h, p) := block;
      mem, free, HP := h.mem, h.free, h.hp;
      r := PushOperand(Value.Value(PTR, ToWord(p)));
    }

    method ExecuteFree() returns (r: Outcome<()>)
      requires Valid() && running
      modifies this`operandStack, this`free
      ensures Became(PagedFree(old(View())), r)
    {
      hide Heap.Release, PagedRead;
      var value :- PopOperand();
      if value.ty != PTR || !InHeap(View(), ToWord(Low(value) - Heap.HEADER)) {
        return Err(Internal);
      }
      var a := Low(value) - Heap.HEADER;
      free := Heap.Release(free, Heap.FreeBlock(PagedRead(mem, a, 4), a));
      r := Ok(());
    }

    // -------------------------------------------------------------- control

    method ExecuteCall(a: int) returns (r: Outcome<()>)
      requires Valid() && running
      modifies this`operandStack, this`mem, this`FP, this`SP, this`PC, this`frameInfoStack
      ensures Became(PagedCall(old(View()), a), r)
    {
      hide PagedEnter, FetchHeader;
      ghost var s := View();
      if FetchHeader(mem, dataStart, a).None? {
        return Err(Unmodelled);
      }
      var h := FetchHeader(mem, dataStart, a).value;
      var values :- PopOperands(h.args);
      var arguments := seq(h.args, i requires 0 <= i < h.args => values[i].raw % W64);
      assert arguments == PopArgs(s, h.args);
      var c :- PagedEnter(View().Calls(), HP, FrameInfo(h.args, h.locals), arguments, PC);
      mem, FP, SP, frameInfoStack, PC := c.mem, c.fp, c.sp, c.frames, a + 5;
      r := Ok(());
    }

    method ExecuteRet() returns (r: Outcome<()>)
      requires Valid() && running
      modifies this`FP, this`SP, this`PC, this`frameInfoStack
      ensures Became(PagedRet(old(View())), r)
    {
      hide PagedRead;
      if |frameInfoStack| == 0 {
        return Err(Internal);
      }
      var frameInfo := frameInfoStack[|frameInfoStack| - 1];
      frameInfoStack := frameInfoStack[..|frameInfoStack| - 1];
      SP := ToWord(SP + FrameSize(frameInfo));
      PC := PagedRead(mem, FP + 4, 4);
      FP := PagedRead(mem, FP, 4);
      r := Ok(());
    }

    /** Native functions are not part of this model. */
    method ExecuteNative() returns (r: Outcome<()>)
      requires Valid() && running
      ensures Became(old(View()).Fail(Unmodelled), r)
    {
      r := Err(Unmodelled);
    }

    method ExecuteJmp(a: int) returns (r: Outcome<()>)
      requires Valid() && running
      modifies this`PC
      ensures Became(old(View()).(pc := a), r)
    {
      PC := a;
      r := Ok(());
    }

    method ExecuteBranch(a: int, onZero: bool) returns (r: Outcome<()>)
      requires Valid() && running
      modifies this`operandStack, this`PC
      ensures Became(ExecBranch(old(View()), a, onZero), r)
    {
      var value :- PopOperand();
      if IsZero(value) == onZero {
        PC := a;
      }
      r := Ok(());
    }

    // -------------------------------------------------------------- arithmetic and errors

    method ExecuteArith(op: ArithOp) returns (r: Outcome<()>)
      requires Valid() && running
      modifies this`operandStack
      ensures Became(ExecArith(old(View()), op), r)
    {
      hide Apply;
      ghost var s := View();
      var value1 :- PopOperand();
      var value2 :- PopOperand();
      assert value1 == Top(s, 0) && value2 == Top(s, 1) && operandStack == Drop(s, 2);
      if op in {DIV, MOD} && IsZero(value1) {
        return Err(DivisionByZero);
      }
      var result :- Apply(op, value2, value1);
      r := PushOperand(result);
    }

    method ExecuteNot() returns (r: Outcome<()>)
      requires Valid() && running
      modifies this`operandStack
      ensures Became(Execute(NO_CODE, old(View()), Not), r)
    {
      hide BitNot;
      var value :- PopOperand();
      var result :- BitNot(value);
      r := PushOperand(result);
    }

    method ExecuteConv(ty: Ty) returns (r: Outcome<()>)
      requires Valid() && running
      modifies this`operandStack
      ensures Became(Execute(NO_CODE, old(View()), Conv(ty)), r)
    {
      hide ConvertTo;
      var value :- PopOperand();
      var result :- ConvertTo(value, ty);
      r := PushOperand(result);
    }

    method ExecuteThrow(err: ErrorRef) returns (r: Outcome<()>)
      requires Valid() && running
      modifies this`operandStack
      ensures Became(ExecThrow(old(View()), err), r)
    {
      match err
      case ArrayIndexOutOfRange =>
        var arrayIndex :- PopOperand();
        var arrayLength :- PopOperand();
        r := Err(if IsInteger(arrayIndex.ty) && arrayLength.ty == UI32 then IndexOutOfRange else Internal);
      case NegativeArrayLength =>
        var arrayLength :- PopOperand();
        r := Err(if IsInteger(arrayLength.ty) then NegativeLength else Internal);
      case ArrayInitialiserLength =>
        var arrayLength :- PopOperand();
        r := Err(if arrayLength.ty == UI32 then InitialiserLength else Internal);
      case ZeroRangeStep =>
        r := Err(ZeroStep);
    }

    // -------------------------------------------------------------- the fetch-execute cycle

    predicate IsMemory(i: Instr<int>) {
      i.Load? || i.LoadB? || i.LoadG? || i.LoadL? || i.Store? || i.StoreB? || i.StoreG? || i.StoreL? || i.AddrL?
        || i.Alloc? || i.Free?
    }

    /** The part of the switch that deals with memory instructions. */
    method ExecuteMemory(i: Instr<int>) returns (r: Outcome<()>)
      requires Valid() && running && IsMemory(i)
      modifies this
      ensures Became(PagedExecute(old(View()), i), r)
    {
      hide Became, View, Valid, PushOutcome, Push1, Drop, Top;
      match i
      case Load(ty) => r := ExecuteLoad(ty);
      case LoadB => r := ExecuteLoadB();
      case LoadG(a) => r := ExecuteLoadG(a);
      case LoadL(ty, off) => r := ExecuteLoadL(ty, off);
      case Store => r := ExecuteStore();
      case StoreB => r := ExecuteStoreB();
      case StoreG(a) => r := ExecuteStoreG(a);
      case StoreL(off) => r := ExecuteStoreL(off);
      case AddrL(off) => r := ExecuteAddrL(off);
      case Alloc => r := ExecuteAlloc();
      case Free => r := ExecuteFree();
    }

    predicate IsControl(i: Instr<int>) {
      i.Native? || i.Call? || i.Ret? || i.Jmp? || i.Jez? || i.Jnz? || i.Throw? || i.Nop? || i.Halt?
    }

    /** The part that moves PC or stops. */
    method ExecuteControl(i: Instr<int>) returns (r: Outcome<()>)
      requires Valid() && running && IsControl(i)
      modifies this
      ensures Became(PagedExecute(old(View()), i), r)
    {
      hide Became, View, Valid, PushOutcome, Push1, Drop, Top;
      match i
      case Nop => r := ExecuteNop();
      case Halt => r := ExecuteHalt();
      case Native(_) => r := ExecuteNative();
      case Call(a) => r := ExecuteCall(a);
      case Ret => r := ExecuteRet();
      case Jmp(a) => r := ExecuteJmp(a);
      case Jez(a) => r := ExecuteBranch(a, true);
      case Jnz(a) => r := ExecuteBranch(a, false);
      case Throw(err) => r := ExecuteThrow(err);
    }

    method ExecuteInstruction(i: Instr<int>) returns (r: Outcome<()>)
      requires Valid() && running
      modifies this
      ensures Became(PagedExecute(old(View()), i), r)
    {
      hide Became, View, Valid, PushOutcome, Push1, Drop, Top;
      if IsMemory(i) {
        r := ExecuteMemory(i);
      } else if IsControl(i) {
        r := ExecuteControl(i);
      } else {
        match i
        case Push(ty, imm) => r := ExecutePush(ty, imm);
        case PushLabel(a) => r := ExecutePush(PTR, a);
        case Pop => r := ExecutePop();
        case Dup(d) => r := ExecuteDup(d);
        case Swap => r := ExecuteSwap();
        case RotD(d) => r := ExecuteRotD(d);
        case RotU(d) => r := ExecuteRotU(d);
        case Arith(op) => r := ExecuteArith(op);
        case Not => r := ExecuteNot();
        case Conv(ty) => r := ExecuteConv(ty);
      }
    }

    // -------------------------------------------------------------- fetching

    /** read8 in the code region, behind which PC moves. */
    method FetchByte() returns (r: Outcome<Byte>)
      modifies this`PC
      ensures match CodeByte(mem, dataStart, old(PC))
              case None => r == Err(Unmodelled)
              case Some(b) => r == Ok(b) && PC == old(PC) + 1
    {
      if CodeByte(mem, dataStart, PC).None? {
        return Err(Unmodelled);
      }
      PC := PC + 1;
      r := Ok(CodeByte(mem, dataStart, PC - 1).value);
    }

    /** read32 or read64 there. */
    method FetchNumber(n: nat) returns (r: Outcome<int>)
      modifies this`PC
      ensures match CodeNumber(mem, dataStart, old(PC), n)
              case None => r == Err(Unmodelled)
              case Some(v) => r == Ok(v) && PC == old(PC) + n
    {
      hide PagedRead;
      if CodeNumber(mem, dataStart, PC, n).None? {
        return Err(Unmodelled);
      }
      PC := PC + n;
      r := Ok(CodeNumber(mem, dataStart, PC - n, n).value);
    }

    /** The opcode, and then the operands it asks for. */
    method FetchNext() returns (r: Outcome<Instr<int>>)
      modifies this`PC
      ensures match FetchInstruction(mem, dataStart, old(PC))
              case None => r == Err(Unmodelled)
              case Some(i) => r == Ok(i) && PC == old(PC) + Size(i)
    {
      hide PagedRead, PlainOf, WordOf, ByteOf, TyOf, Get;
      var op :- FetchByte();
      if op == 0x02 || op == 0x0b {
        r := FetchTypedOperand(op);
      } else if op in {0x0a, 0x0e, 0x0f, 0x10, 0x14, 0x16, 0x17, 0x18} {
        var w :- FetchNumber(4);
        OperandSizes(op, w, 0);
        r := Decoded(WordOf(op, w));
      } else if op in {0x04, 0x06, 0x07, 0x08, 0x13, 0x2b, 0x2c} {
        var x :- FetchByte();
        if op in {0x04, 0x06, 0x07} {
          var _ :- FetchByte();
        }
        OperandSizes(op, 0, x);
        r := Decoded(ByteOf(op, x));
      } else {
        OperandSizes(op, 0, 0);
        r := Decoded(PlainOf(op));
      }
    }

    /** push and loadL: a type, and an immediate of its width or a word. */
    method FetchTypedOperand(op: Byte) returns (r: Outcome<Instr<int>>)
      requires op == 0x02 || op == 0x0b
      modifies this`PC
      ensures match FetchTyped(mem, dataStart, old(PC) - 1, op)
              case None => r == Err(Unmodelled)
              case Some(i) => r == Ok(i) && PC == old(PC) - 1 + Size(i)
    {
      hide PagedRead, TyOf, Get;
      var b :- FetchByte();
      var ty :- match TyOf(b) case Some(ty) => Ok(ty) case None => Err(Unmodelled);
      var v :- FetchNumber(if op == 0x02 then Width(ty) else 4);
      r := Ok(if op == 0x02 then Push(ty, v) else LoadL(ty, Signed(ToWord(v))));
    }

    // -------------------------------------------------------------- running

    /** execute. */
    method ExecuteNext() returns (r: Outcome<()>)
      requires Valid() && running
      modifies this
      ensures Became(PagedStep(old(View())), r)
    {
      hide PagedExecute, FetchInstruction;
      var i :- FetchNext();
      r := ExecuteInstruction(i);
    }

    /** The loop of runProgram, for at most `steps` instructions. */
    method RunProgram(steps: nat) returns (r: Outcome<()>)
      requires Valid()
      modifies this
      ensures Became(PagedSteps(old(View()), steps), r)
    {
      hide PagedStep;
      ghost var s := View();
      var k := 0;
      while running && k < steps
        invariant k <= steps && Valid() && View() == PagedSteps(s, k)
      {
        OneMoreStep(s, k);
        r := ExecuteNext();
        if r.Err? {
          PagedStopped(s, k + 1, steps);
          return;
        }
        k := k + 1;
      }
      if !running {
        PagedStopped(s, k, steps);
      }
      r := Ok(());
    }
  }

  // ---------------------------------------------------------------- helpers

  function Backwards(values: seq<Value>): (r: seq<Value>)
    ensures |r| == |values|
  {
    if values == [] then [] else Backwards(values[1..]) + [values[0]]
  }

  lemma {:induction false} BackwardsAt(values: seq<Value>, k: nat)
    requires k < |values|
    ensures Backwards(values)[k] == values[|values| - 1 - k]
    decreases |values|
  {
    if k < |values| - 1 {
      BackwardsAt(values[1..], k);
    }
  }

  /** Operands popped and pushed back are the top of the stack. */
  lemma {:induction false} BackwardsIsTop(s: State, values: seq<Value>)
    requires |values| <= |s.stack| && forall i | 0 <= i < |values| :: values[i] == Top(s, i)
    ensures Backwards(values) == s.stack[|s.stack| - |values|..]
  {
    forall k | 0 <= k < |values|
      ensures Backwards(values)[k] == s.stack[|s.stack| - |values|..][k]
    {
      BackwardsAt(values, k);
    }
  }

  /** The popped operands in the order rotD and rotU push them. */
  lemma {:induction false} RotatedDown(s: State, values: seq<Value>)
    requires 0 < |values| <= |s.stack| && forall i | 0 <= i < |values| :: values[i] == Top(s, i)
    ensures Drop(s, |values|) + Backwards(values[0..|values| - 1])
      + [values[|values| - 1]] == ExecRotD(s, |values|).stack
  {
    hide Backwards;
    BackwardsIsTop(s, values[0..|values| - 1]);
  }

  lemma {:induction false} RotatedUp(s: State, values: seq<Value>)
    requires 0 < |values| <= |s.stack| && forall i | 0 <= i < |values| :: values[i] == Top(s, i)
    ensures Drop(s, |values|) + [values[0]] + Backwards(values[1..|values|]) == ExecRotU(s, |values|).stack
  {
    BackwardsIsTop(s, values);
    assert values[1..|values|] == values[1..] && Backwards(values[1..]) == Backwards(values)[..|values| - 1];
    var m, d := |s.stack|, |values|;
    assert s.stack[m - d..][..d - 1] == s.stack[m - d..m - 1];
  }

  function Decoded(i: Option<Instr<int>>): Outcome<Instr<int>> {
    match i
    case Some(x) => Ok(x)
    case None => Err(Unmodelled)
  }

  /** How far the fetch moves PC for each group of opcodes. */
  lemma {:induction false} OperandSizes(op: Byte, w: int, x: Byte)
    ensures op in {0x0a, 0x0e, 0x0f, 0x10, 0x14, 0x16, 0x17, 0x18} && WordOf(op, w).Some? ==>
      Size(WordOf(op, w).value) == 5
    ensures op in {0x04, 0x06, 0x07, 0x08, 0x13, 0x2b, 0x2c} && ByteOf(op, x).Some? ==>
      Size(ByteOf(op, x).value) == if op in {0x04, 0x06, 0x07} then 3 else 2
    ensures PlainOf(op).Some? ==> Size(PlainOf(op).value) == 1
  {
  }

  lemma {:induction false} OnePage(x: Access)
    ensures InPages([x]) <==> InOnePage(x.a, x.n)
  {
    assert [x][0] == x;
  }

  lemma {:induction false} BothPages(x: Access, y: Access)
    requires InOnePage(x.a, x.n)
    ensures InPages([x] + [y]) <==> InOnePage(y.a, y.n)
  {
    assert ([x] + [y])[0] == x && ([x] + [y])[1] == y;
  }

  /** A single byte stays in its page. */
  lemma {:induction false} TypeByte(a: int)
    ensures InOnePage(a, 1) && InPages([ReadAt(a, 1)] + [])
  {
  }

  lemma {:induction false} OneMoreStep(s: State, k: nat)
    ensures PagedSteps(s, k + 1) == PagedStep(PagedSteps(s, k))
    decreases k
  {
    hide PagedStep;
    if k > 0 {
      OneMoreStep(PagedStep(s), k - 1);
    }
  }

  lemma {:induction false} PagedStopped(s: State, j: nat, k: nat)
    requires j <= k && PagedSteps(s, j).status != Running
    ensures PagedSteps(s, k) == PagedSteps(s, j)
    decreases k - j
  {
    hide PagedStep;
    if j < k {
      OneMoreStep(s, j);
      assert PagedStep(PagedSteps(s, j)) == PagedSteps(s, j) by { StoppedStep(PagedSteps(s, j)); }
      PagedStopped(s, j + 1, k);
    }
  }

  lemma {:induction false} StoppedStep(s: State)
    requires s.status != Running
    ensures PagedStep(s) == s
  {
  }
}
