/** Single instructions of the machine, said by what they do to operands and memory: the limit of the operand
    stack, rotations, bytes and words through pointers, blocks taken and given back, and the errors thrown. */
module MachineLaws {
  import opened Words
  import opened Isa
  import opened FlatMemory
  import opened Arithmetic
  import opened Heap
  import opened HeapRuns
  import HeapLaws
  import opened Frames
  import opened Machine

  // ---------------------------------------------------------------- the operand stack

  /** No instruction leaves more than 1024 operands. */
  lemma {:induction false} OperandsBounded(code: Code, s: State, i: Instr<int>)
    requires |s.stack| <= 1024
    ensures |Execute(code, s, i).stack| <= 1024
  {
    hide Apply, ConvertTo, BitNot, Allocate, Deallocate, Enter, Leave, SlotAddress, ReadTyped, WriteTyped, Write64,
      Write8, Read64, Get, InPtr, InData, InHeap, GlobalTy, PopArgs;
  }

  /** So no run ever holds more. */
  lemma {:induction false} RunBounded(code: Code, s: State, k: nat)
    requires |s.stack| <= 1024
    ensures |Run(code, s, k).stack| <= 1024
    decreases k
  {
    hide Execute, Size;
    if k > 0 {
      if s.status == Running && s.pc in code.ops {
        OperandsBounded(code, s.(pc := s.pc + Size(code.ops[s.pc])), code.ops[s.pc]);
      }
      RunBounded(code, Step(code, s), k - 1);
    }
  }

  /** Instructions that add an operand. */
  predicate Pushes(i: Instr<int>) {
    match i
    case Push(_, imm) => imm >= 0
    case PushLabel(a) => a >= 0
    case Dup(d) => d < 1024
    case LoadG(_) => true
    case LoadL(_, _) => true
    case AddrL(_) => true
    case _ => false
  }

  /** On 1024 operands every one of them fails. */
  lemma {:induction false} FullStack(code: Code, s: State, i: Instr<int>)
    requires |s.stack| == 1024 && Pushes(i) && s.status == Running
    ensures Execute(code, s, i).status.Failed?
  {
    hide ReadTyped, Read64, Get, GlobalTy, SlotAddress, InData, InCallStack;
  }

  /** A push fails exactly then. */
  lemma {:induction false} PushExact(code: Code, s: State, ty: Ty, imm: nat)
    requires |s.stack| <= 1024 && s.status == Running
    ensures Execute(code, s, Push(ty, imm)) ==
      if |s.stack| < 1024 then s.(stack := s.stack + [Value(ty, imm)]) else s.Fail(Internal)
  {
    assert Drop(s, 0) == s.stack;
  }

  /** dup copies the operand at its depth, for every depth there is. */
  lemma {:induction false} DupExact(code: Code, s: State, d: nat)
    requires |s.stack| <= 1024 && s.status == Running
    ensures var t := Execute(code, s, Dup(d));
      if d < |s.stack| < 1024 then t == s.(stack := s.stack + [s.stack[|s.stack| - 1 - d]]) else t == s.Fail(Internal)
  {
    assert Drop(s, 0) == s.stack;
  }

  // ---------------------------------------------------------------- rotations

  /** rotD brings the operand below d - 1 others to the top, rotU puts it back. */
  lemma {:induction false} Rotations(code: Code, s: State, S: seq<Value>, x: Value, D: seq<Value>)
    ensures var d := |D| + 1;
      && Execute(code, s.(stack := S + [x] + D), RotD(d)) == s.(stack := S + D + [x])
      && Execute(code, s.(stack := S + D + [x]), RotU(d)) == s.(stack := S + [x] + D)
  {
    var d := |D| + 1;
    var a, b := S + [x] + D, S + D + [x];
    assert a[..|a| - d] == S && a[|a| - d + 1..] == D && a[|a| - d] == x;
    assert b[..|b| - d] == S && b[|b| - d..|b| - 1] == D;
  }

  /** Rotating deeper than there are operands is an internal error. */
  lemma {:induction false} RotationsFail(code: Code, s: State, d: nat)
    requires s.status == Running && d > 0
    ensures Execute(code, s, RotD(d)) == s.Fail(Internal) <==> |s.stack| < d
    ensures Execute(code, s, RotU(d)) == s.Fail(Internal) <==> |s.stack| < d
  {
  }

  lemma {:induction false} SwapTwice(code: Code, s: State, S: seq<Value>, x: Value, y: Value)
    ensures Execute(code, s.(stack := S + [x, y]), Swap) == s.(stack := S + [y, x])
  {
    assert (S + [x, y])[..|S|] == S;
  }

  // ---------------------------------------------------------------- memory through pointers

  /** An address as an operand: a pointer or a ui32 into data, heap or call stack. */
  predicate PointsTo(s: State, p: Value, a: int) {
    (p.ty == PTR || p.ty == UI32) && p.raw == a && IsWord(a)
      && ((s.dataStart <= a < s.hb) || (s.hb <= a <= s.hp) || s.sp <= a)
  }

  /** A stored operand is loaded back at its type, cut to its width; no byte outside it changes. */
  lemma {:induction false} StoreLoad(code: Code, s: State, S: seq<Value>, p: Value, v: Value, a: int)
    requires PointsTo(s, p, a) && s.stack == S + [p, v] && s.status == Running && |S| < 1024
    ensures var t := Execute(code, s, Store);
      && t == s.(stack := S, mem := t.mem)
      && (forall x | x < a || a + Width(v.ty) <= x :: Get(t.mem, x) == Get(s.mem, x))
      && Execute(code, t.(stack := S + [p]), Load(v.ty))
         == t.(stack := S + [Value(v.ty, if IsWide(v.ty) then v.raw % W64 else v.raw % W32)])
  {
    hide Read32, Write32, Get;
    assert Drop(s, 2) == S && Top(s, 1) == p && Top(s, 0) == v;
    if IsWide(v.ty) {
      CellStore64(s.mem, a, v.raw % W64);
    } else {
      Read32Write32(s.mem, a, Low(v));
      forall x | x < a || a + 4 <= x
        ensures Get(Write32(s.mem, a, Low(v)), x) == Get(s.mem, x)
      {
        Write32Elsewhere(s.mem, a, Low(v), x);
      }
    }
    var t := Execute(code, s, Store).(stack := S + [p]);
    assert Drop(t, 1) == S && Top(t, 0) == p;
  }

  /** storeB stores the low byte of an integer, and loadB reads it as a ui32. */
  lemma {:induction false} StoreLoadByte(code: Code, s: State, S: seq<Value>, p: Value, v: Value, a: int)
    requires PointsTo(s, p, a) && s.stack == S + [p, v] && s.status == Running && |S| < 1024 && IsInteger(v.ty)
    ensures var t := Execute(code, s, StoreB);
      && t == s.(stack := S, mem := t.mem) && (forall x | x != a :: Get(t.mem, x) == Get(s.mem, x))
      && Execute(code, t.(stack := S + [p]), LoadB) == t.(stack := S + [Value(UI32, v.raw % 256)])
  {
    assert Drop(s, 2) == S && Top(s, 1) == p && Top(s, 0) == v;
    var t := Execute(code, s, StoreB).(stack := S + [p]);
    assert Drop(t, 1) == S && Top(t, 0) == p;
  }

  /** Anything that is no address, or an address in the code or between heap and call stack, is refused by all four,
      and memory stays as it is. */
  lemma {:induction false} BadAddress(code: Code, s: State, S: seq<Value>, p: Value, v: Value, ty: Ty)
    requires s.status == Running && s.stack == S + [p, v] && !PointsTo(s, p, p.raw % W32) && (p.raw < W32)
    ensures Execute(code, s, Store) == s.Fail(Internal) && Execute(code, s, StoreB) == s.Fail(Internal)
    ensures var t := s.(stack := S + [p]);
      Execute(code, t, Load(ty)) == t.Fail(Internal) && Execute(code, t, LoadB) == t.Fail(Internal)
  {
    assert Top(s, 1) == p && Top(s.(stack := S + [p]), 0) == p;
  }

  // ---------------------------------------------------------------- blocks

  /** A block taken with alloc and given back with free: the pointer passes the checks of free, and the free list is
      the one before. */
  lemma {:induction false} AllocFree(code: Code, s: State, live: Blocks, S: seq<Value>, size: nat)
    requires HeapOk(s.HeapView(), live, s.hb) && s.stack == S + [Value(UI32, size)] && s.status == Running
    requires 0 < size < W32 && |S| < 1024 && s.sp <= MAX_ADDR && Allocate(s.HeapView(), size, s.sp).Ok?
    ensures var t := Execute(code, s, Alloc);
      && t.status == Running && |t.stack| == |S| + 1 && t.stack[..|S|] == S && t.stack[|S|].ty == PTR
      && (var p := t.stack[|S|].raw;
          p - 4 !in live && HeapOk(t.HeapView(), live[p - 4 := size + 4], s.hb)
          && forall x | p <= x < p + size :: Get(t.mem, x) == 0)
      && Execute(code, t, Free) == t.(stack := S, free := s.free)
  {
    hide HeapOk, Allocate, Deallocate, Read32, Get;
    AllocateKeeps(s.HeapView(), live, s.hb, size, s.sp);
    ReleaseUndoesAllocate(s.HeapView(), live, s.hb, size, s.sp);
    var (h, p) := Allocate(s.HeapView(), size, s.sp).value;
    Granted(h, live[p - 4 := size + 4], s.hb, p - 4);
    assert Drop(s, 1) == S && Top(s, 0) == Value(UI32, size);
    var t := Execute(code, s, Alloc);
    assert t.stack == S + [Value(PTR, p)] && Drop(t, 1) == S && Top(t, 0) == Value(PTR, p);
  }

  /** free accepts a pointer exactly when the header in front of it lies in the heap region. */
  lemma {:induction false} FreeExact(code: Code, s: State, S: seq<Value>, p: Value)
    requires s.stack == S + [p] && s.status == Running && p.raw < W32 && 0 <= s.hb <= s.hp < W32
    ensures Execute(code, s, Free) == s.Fail(Internal) <==>
      p.ty != PTR || !(s.hb <= (if p.raw < 4 then p.raw - 4 + W32 else p.raw - 4) <= s.hp)
  {
    hide Deallocate;
    assert Top(s, 0) == p;
  }

  lemma {:induction false} Granted(h: HeapState, live: Blocks, hb: int, a: int)
    requires HeapOk(h, live, hb) && a in live
    ensures 0 <= hb <= a <= h.hp && a + 4 < h.hp <= MAX_ADDR
  {
  }

  /** alloc is granted the lowest free block that has room for the header and the bytes. */
  lemma {:induction false} LowestBlock(h: HeapState, size: int, sp: int, hb: int)
    requires HeapLaws.Canonical(h.free, hb) && 0 < size && IsWord(size) && Allocate(h, size, sp).Ok?
    ensures var a := Allocate(h, size, sp).value.1 - 4;
      && (exists k | 0 <= k < |h.free| :: h.free[k].addr == a && h.free[k].size >= size + 4)
      && forall k | 0 <= k < |h.free| && h.free[k].size >= size + 4 :: a <= h.free[k].addr
  {
    hide ZeroFrom, Write32, Take;
    FirstFitIsLowest(h.free, size + 4, hb);
  }

  // ---------------------------------------------------------------- errors that code throws

  /** The operands that the report of an error takes from the stack. */
  predicate Reported(err: ErrorRef, stack: seq<Value>) {
    var n := |stack|;
    match err
    case ArrayIndexOutOfRange => n >= 2 && stack[n - 1].ty in {I32, UI32, I64, UI64} && stack[n - 2].ty == UI32
    case NegativeArrayLength => n >= 1 && stack[n - 1].ty in {I32, UI32, I64, UI64}
    case ArrayInitialiserLength => n >= 1 && stack[n - 1].ty == UI32
    case ZeroRangeStep => true
  }

  function FaultOf(err: ErrorRef): Fault {
    match err
    case ArrayIndexOutOfRange => IndexOutOfRange
    case NegativeArrayLength => NegativeLength
    case ArrayInitialiserLength => InitialiserLength
    case ZeroRangeStep => ZeroStep
  }

  /** Each error reference stops the machine with an error of its own, or with an internal one when the operands of
      its report are not there. */
  lemma {:induction false} ThrowExact(code: Code, s: State, err: ErrorRef)
    requires s.status == Running
    ensures Execute(code, s, Throw(err)) == s.Fail(if Reported(err, s.stack) then FaultOf(err) else Internal)
    ensures forall other | FaultOf(other) == FaultOf(err) :: other == err
    ensures FaultOf(err) != Internal
  {
  }
}
