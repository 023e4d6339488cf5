/** High halves of 32-bit operands: every instruction keeps them zero, except `not`, which never does.
    CleanRuns.dfy adds the frame slots. */
module Cleanliness {
  import opened Words
  import opened Isa
  import opened FlatMemory
  import opened Arithmetic
  import opened Frames
  import opened Machine
  import Heap

  /** The raw bits fit the type. */
  predicate CleanValue(v: Value) {
    v.raw < if IsWide(v.ty) then W64 else W32
  }

  ghost predicate CleanStack(s: seq<Value>) {
    forall i | 0 <= i < |s| :: CleanValue(s[i])
  }

  /** Immediates as the fetch decodes them. */
  predicate Decoded(i: Instr<int>) {
    && (i.Push? ==> i.imm < if IsWide(i.ty) then W64 else W32)
    && (i.PushLabel? ==> i.target < W32)
  }

  /** A narrow operand loaded from a slot whose cell holds more than 32 bits. */
  predicate LoadsWide(s: State, i: Instr<int>) {
    && i.LoadL? && !IsWide(i.ty) && SlotAddress(s.Calls(), i.offset).Ok?
    && Read64(s.mem, SlotAddress(s.Calls(), i.offset).value) >= W32
  }

  /** The two ways in which an instruction makes an operand that does not fit its type. */
  predicate DirtiesOperand(s: State, i: Instr<int>) {
    (i.Not? && |s.stack| > 0 && !IsWide(Top(s, 0).ty)) || LoadsWide(s, i)
  }

  lemma {:induction false} CleanOutcome(s: State, n: nat, r: Outcome<Value>)
    requires CleanStack(s.stack) && n <= |s.stack| && (r.Ok? ==> CleanValue(r.value))
    ensures CleanStack(PushOutcome(s, n, r).stack)
  {
  }

  lemma {:induction false} BitwiseClean(op: BitOp, a: Value, b: Value)
    requires CleanValue(a) && CleanValue(b) && Bitwise(op, a, b).Ok?
    ensures CleanValue(Bitwise(op, a, b).value)
  {
    Pow2Is32();
    BitsBounded(op, a.raw, b.raw, if IsWide(a.ty) then 64 else 32);
  }

  lemma {:induction false} ShiftClean(arithmetic: bool, a: Value, b: Value)
    requires CleanValue(a) && ShiftRight(arithmetic, a, b).Ok?
    ensures CleanValue(ShiftRight(arithmetic, a, b).value)
  {
    hide Pow2;
    var p := Pow2(Low(b) % (if IsWide(a.ty) then 64 else 32));
    QuotientSmaller(a.raw, p);
  }

  /** The arithmetic of two clean operands. */
  lemma {:induction false} ApplyClean(op: ArithOp, a: Value, b: Value)
    requires CleanValue(a) && CleanValue(b) && Apply(op, a, b).Ok?
    ensures CleanValue(Apply(op, a, b).value)
  {
    hide Bits, Pow2, Quotient, TruncDiv, TruncMod, Bitwise, ShiftRight, CleanValue;
    match op {
      case AND => BitwiseClean(And, a, b);
      case ORR => BitwiseClean(Or, a, b);
      case XOR => BitwiseClean(Xor, a, b);
      case SHR => ShiftClean(false, a, b);
      case SAR => ShiftClean(true, a, b);
      case _ => PlainClean(op, a, b);
    }
  }

  lemma {:induction false} PlainClean(op: ArithOp, a: Value, b: Value)
    requires op !in {AND, ORR, XOR, SHR, SAR} && CleanValue(a) && CleanValue(b) && Apply(op, a, b).Ok?
    ensures CleanValue(Apply(op, a, b).value)
  {
    hide Bits, Pow2, TruncDiv, TruncMod, Bitwise, ShiftRight;
    if op == DIV && a.ty == UI32 {
      QuotientSmaller(Low(a), Low(b));
    }
    if op == MOD && a.ty == UI32 && Low(b) > 0 {
      assert Low(a) % Low(b) < Low(b);
    }
  }

  lemma {:induction false} ArithStep(s: State, op: ArithOp)
    requires CleanStack(s.stack) && ExecArith(s, op).status == Running && s.status == Running
    ensures CleanStack(ExecArith(s, op).stack)
  {
    hide Apply;
    var r := Apply(op, Top(s, 1), Top(s, 0));
    if r.Ok? {
      ApplyClean(op, Top(s, 1), Top(s, 0));
    }
    CleanOutcome(s, 2, r);
  }

  /** A complemented 32-bit operand is at least 2^64 - 2^32. */
  lemma {:induction false} NotStep(s: State)
    requires CleanStack(s.stack) && |s.stack| > 0 && s.status == Running
    requires PushOutcome(s, 1, BitNot(Top(s, 0))).status == Running
    ensures CleanStack(PushOutcome(s, 1, BitNot(Top(s, 0))).stack) <==> IsWide(Top(s, 0).ty)
  {
    var v := Top(s, 0);
    var r := Value(v.ty, W64 - 1 - v.raw % W64);
    assert CleanValue(v);
    var u := PushOutcome(s, 1, BitNot(v));
    assert u.stack == Drop(s, 1) + [r] && u.stack[|s.stack| - 1] == r;
    if IsWide(v.ty) {
      CleanOutcome(s, 1, BitNot(v));
    }
  }

  lemma {:induction false} ConvStep(s: State, ty: Ty)
    requires CleanStack(s.stack) && |s.stack| > 0
    ensures CleanStack(PushOutcome(s, 1, ConvertTo(Top(s, 0), ty)).stack)
  {
    CleanOutcome(s, 1, ConvertTo(Top(s, 0), ty));
  }

  /** One clean value in place of the top n. */
  lemma {:induction false} CleanPush(s: State, n: nat, v: Value)
    requires CleanStack(s.stack) && n <= |s.stack| && CleanValue(v)
    ensures CleanStack(Push1(s, n, v).stack)
  {
  }

  lemma {:induction false} PushStep(code: Code, s: State, i: Instr<int>)
    requires i.Push? || i.PushLabel? || i.AddrL? || i.Alloc?
    requires CleanStack(s.stack) && Decoded(i) && Execute(code, s, i).status == Running && s.status == Running
    ensures CleanStack(Execute(code, s, i).stack)
  {
    hide CleanStack, Heap.Allocate, Read64;
    match i
    case Push(ty, imm) => CleanPush(s, 0, Value(ty, imm));
    case PushLabel(a) => CleanPush(s, 0, Value(PTR, a));
    case AddrL(off) => CleanPush(s, 0, Value(PTR, SlotAddress(s.Calls(), off).value));
    case Alloc => CleanPush(s, 1, Value(PTR, ToWord(Heap.Allocate(s.HeapView(), Low(Top(s, 0)), s.sp).value.1)));
  }

  lemma {:induction false} LoadLStep(code: Code, s: State, ty: Ty, off: int)
    requires CleanStack(s.stack) && ExecLoadL(s, ty, off).status == Running && s.status == Running
    ensures CleanStack(ExecLoadL(s, ty, off).stack) <==> !LoadsWide(s, LoadL(ty, off))
  {
    hide Read64;
    var v := Value(ty, Read64(s.mem, SlotAddress(s.Calls(), off).value));
    var u := Push1(s, 0, v);
    assert u.stack == Drop(s, 0) + [v] && u.stack[|s.stack|] == v;
  }

  lemma {:induction false} LoadStep(code: Code, s: State, i: Instr<int>)
    requires i.Load? || i.LoadB? || i.LoadG?
    requires CleanStack(s.stack) && Execute(code, s, i).status == Running && s.status == Running
    ensures CleanStack(Execute(code, s, i).stack)
  {
    hide CleanStack, Read64, Read32, Get;
    match i
    case Load(ty) => CleanPush(s, 1, ReadTyped(s.mem, Low(Top(s, 0)), ty));
    case LoadB => CleanPush(s, 1, Value(UI32, Get(s.mem, Low(Top(s, 0)))));
    case LoadG(a) => CleanPush(s, 0, ReadTyped(s.mem, a, GlobalTy(Get(s.mem, a - 1)).value));
  }

  /** The remaining instructions only drop, copy or reorder operands. */
  lemma {:induction false} MovesOnly(code: Code, s: State, i: Instr<int>)
    requires CleanStack(s.stack) && s.status == Running && Execute(code, s, i).status == Running
    requires !(i.Push? || i.PushLabel? || i.AddrL? || i.Alloc? || i.LoadL? || i.Load? || i.LoadB? || i.LoadG?
      || i.Arith? || i.Not? || i.Conv?)
    ensures CleanStack(Execute(code, s, i).stack)
  {
    hide Read64, Read32, Get, Write32, Write64, Enter, Leave, Heap.Deallocate, SlotAddress, CleanValue, PopArgs;
    var t := Execute(code, s, i).stack;
    forall k | 0 <= k < |t|
      ensures CleanValue(t[k])
    {
      assert exists j :: 0 <= j < |s.stack| && t[k] == s.stack[j] by { CopyOf(code, s, i, k); }
    }
  }

  lemma {:induction false} CopyOf(code: Code, s: State, i: Instr<int>, k: nat)
    requires s.status == Running && Execute(code, s, i).status == Running && k < |Execute(code, s, i).stack|
    requires !(i.Push? || i.PushLabel? || i.AddrL? || i.Alloc? || i.LoadL? || i.Load? || i.LoadB? || i.LoadG?
      || i.Arith? || i.Not? || i.Conv?)
    ensures exists j :: 0 <= j < |s.stack| && Execute(code, s, i).stack[k] == s.stack[j]
  {
    hide Read64, Read32, Get, Write32, Write64, Enter, Leave, Heap.Deallocate, SlotAddress, PopArgs, ExecRotD, ExecRotU;
    var t, m := Execute(code, s, i).stack, |s.stack|;
    if i.RotD? {
      RotDCopies(s, i.depth, k);
    } else if i.RotU? {
      RotUCopies(s, i.depth, k);
    } else if i.Dup? {
      assert t[k] == s.stack[if k < m then k else m - 1 - i.depth];
    } else if i.Swap? {
      assert t[k] == s.stack[if k < m - 2 then k else if k == m - 2 then m - 1 else m - 2];
    } else {
      assert t[k] == s.stack[k];
    }
  }

  lemma {:induction false} RotDCopies(s: State, d: nat, k: nat)
    requires s.status == Running && ExecRotD(s, d).status == Running && k < |ExecRotD(s, d).stack|
    ensures exists j :: 0 <= j < |s.stack| && ExecRotD(s, d).stack[k] == s.stack[j]
  {
    var m := |s.stack|;
    assert ExecRotD(s, d).stack[k] == s.stack[if k < m - d then k else if k == m - 1 then m - d else k + 1];
  }

  lemma {:induction false} RotUCopies(s: State, d: nat, k: nat)
    requires s.status == Running && ExecRotU(s, d).status == Running && k < |ExecRotU(s, d).stack|
    ensures exists j :: 0 <= j < |s.stack| && ExecRotU(s, d).stack[k] == s.stack[j]
  {
    var m := |s.stack|;
    assert ExecRotU(s, d).stack[k] == s.stack[if k < m - d then k else if k == m - d then m - 1 else k - 1];
  }

  /** From clean operands every instruction leaves clean operands, but for `not` on a 32-bit operand, whose
      result always has ones in its high half, and for loads of slots that are not clean. */
  lemma {:induction false} CleanStepExact(code: Code, s: State, i: Instr<int>)
    requires CleanStack(s.stack) && Decoded(i) && s.status == Running && Execute(code, s, i).status == Running
    ensures CleanStack(Execute(code, s, i).stack) <==> !DirtiesOperand(s, i)
  {
    hide Bits, Pow2, TruncDiv, TruncMod, Apply, Read64, Read32, Get, CleanStack;
    match i {
      case Arith(op) => ArithStep(s, op);
      case Not => NotStep(s);
      case Conv(ty) => ConvStep(s, ty);
      case Push(_, _) => PushStep(code, s, i);
      case PushLabel(_) => PushStep(code, s, i);
      case LoadL(ty, off) => LoadLStep(code, s, ty, off);
      case Load(_) => LoadStep(code, s, i);
      case LoadB => LoadStep(code, s, i);
      case LoadG(_) => LoadStep(code, s, i);
      case AddrL(_) => PushStep(code, s, i);
      case Alloc => PushStep(code, s, i);
      case _ => MovesOnly(code, s, i);
    }
  }
}
