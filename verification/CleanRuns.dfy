/** Operand stack and frame slots together: over whole runs every 32-bit value keeps a zero high half,
    except for the instructions named by `Dirties`. */
module CleanRuns {
  import opened Words
  import opened Isa
  import opened FlatMemory
  import opened Arithmetic
  import opened Frames
  import opened FrameLaws
  import opened Machine
  import opened MemoryRuns
  import opened Cleanliness
  import HeapRuns
  import HeapLaws
  import Heap
  import Program

  const HEADER := Heap.HEADER

  function MemoryOf(s: State): Memory {
    Memory(s.mem, s.free, s.hp, CallRegisters(s.fp, s.sp, s.frames))
  }

  // ---------------------------------------------------------------- the machine's memory operations

  /** The memory operation of an instruction, if it is one that allocates, releases, calls, returns or
      stores to a slot. */
  function OpOf(code: Code, s: State, i: Instr<int>): (r: Outcome<Op>)
    ensures r.Ok? ==> OpOk(r.value)
  {
    match i
    case Alloc => if |s.stack| < 1 then Err(Internal) else Ok(AllocOp(Low(Top(s, 0))))
    case Free => if |s.stack| < 1 then Err(Internal) else Ok(FreeOp(Low(Top(s, 0))))
    case StoreL(off) => if |s.stack| < 1 then Err(Internal) else Ok(SlotStore(off, Top(s, 0).raw % W64))
    case Ret => Ok(RetOp)
    case Call(a) =>
      if a !in code.headers || |s.stack| < code.headers[a].args then Err(Internal)
      else Ok(CallOp(FrameInfo(code.headers[a].args, code.headers[a].locals), PopArgs(s, code.headers[a].args), s.pc))
    case _ => Err(Unmodelled)
  }

  /** The machine does to its memory what the operation does. */
  lemma {:induction false} MachineDoes(code: Code, s: State, i: Instr<int>)
    requires s.status == Running && Execute(code, s, i).status == Running
    ensures i.Alloc? || i.Free? || i.StoreL? || i.Ret? || i.Call? ==>
      OpOf(code, s, i).Ok? && Do(MemoryOf(s), OpOf(code, s, i).value) == Outcome.Ok(MemoryOf(Execute(code, s, i)))
  {
    hide Heap.Allocate, Heap.Deallocate, Enter, Leave, SlotAddress, Write64, PopArgs;
  }

  /** All others but the three stores through addresses leave memory and its registers alone. */
  lemma {:induction false} MemoryStays(code: Code, s: State, i: Instr<int>)
    requires s.status == Running && Execute(code, s, i).status == Running
    requires !(i.Alloc? || i.Free? || i.StoreL? || i.Ret? || i.Call? || i.Store? || i.StoreB? || i.StoreG?)
    ensures MemoryOf(Execute(code, s, i)) == MemoryOf(s)
  {
    hide Read64, Read32, Get, SlotAddress, Apply, ConvertTo, BitNot;
  }

  // ---------------------------------------------------------------- frames and slots

  /** Where the base cell of an activation's frame is; arguments lie above it, locals below. */
  function Base(c: Activation): int {
    c.sp - 8 - 8 * c.info.args
  }

  predicate InFrame(c: Activation, j: int) {
    j != 0 && -c.info.locals <= j <= c.info.args
  }

  function SlotCell(c: Activation, j: int): int {
    Base(c) + 8 * j
  }

  ghost predicate CleanSlot(m: Mem, c: Activation, j: int) {
    Read64(m, SlotCell(c, j)) < W32
  }

  /** Every argument and local of every call in progress fits into 32 bits. */
  ghost predicate CleanSlots(m: Mem, calls: seq<Activation>) {
    forall k, j | 0 <= k < |calls| && InFrame(calls[k], j) :: CleanSlot(m, calls[k], j)
  }

  /** Heap and call stack are sound, and all 32-bit values on the operand stack and in the slots are clean. */
  ghost predicate CleanState(s: State, g: Shadow) {
    Separated(MemoryOf(s), g, s.hb) && CleanStack(s.stack) && CleanSlots(s.mem, g.calls)
  }

  /** Frames fill the call stack downwards from the oldest. */
  lemma {:induction false} FrameBounds(m: Mem, r: CallRegisters, calls: seq<Activation>, k: nat)
    requires StackOk(m, r, calls) && k < |calls|
    ensures calls[k].info.locals >= 0 && r.sp <= Base(calls[k]) - 8 * calls[k].info.locals && calls[k].sp <= MAX_ADDR
    ensures k == |calls| - 1 ==> r.fp == Base(calls[k])
    decreases |calls|
  {
    hide Read32;
    StackBounds(m, r, calls);
    var c := calls[|calls| - 1];
    if k < |calls| - 1 {
      FrameBounds(m, CallRegisters(c.fp, c.sp, r.frames[..|r.frames| - 1]), calls[..|calls| - 1], k);
    }
  }

  /** An older frame lies above a younger one. */
  lemma {:induction false} FramesApart(m: Mem, r: CallRegisters, calls: seq<Activation>, k: nat, l: nat)
    requires StackOk(m, r, calls) && k < l < |calls|
    ensures calls[l].sp <= Base(calls[k]) - 8 * calls[k].info.locals
    decreases |calls|
  {
    hide Read32;
    var c := calls[|calls| - 1];
    var older := CallRegisters(c.fp, c.sp, r.frames[..|r.frames| - 1]);
    if l < |calls| - 1 {
      FramesApart(m, older, calls[..|calls| - 1], k, l);
    } else {
      FrameBounds(m, older, calls[..|calls| - 1], k);
    }
  }

  /** Changes below SP reach no slot. */
  lemma {:induction false} SlotsSame(m: Mem, m': Mem, r: CallRegisters, calls: seq<Activation>)
    requires StackOk(m, r, calls) && SameFrom(m, m', r.sp)
    ensures CleanSlots(m', calls) <==> CleanSlots(m, calls)
  {
    hide Get, Read32, Read64, StackOk;
    forall k, j | 0 <= k < |calls| && InFrame(calls[k], j)
      ensures Read64(m', SlotCell(calls[k], j)) == Read64(m, SlotCell(calls[k], j))
    {
      FrameBounds(m, r, calls, k);
      CellFrom(m, m', r.sp, SlotCell(calls[k], j));
    }
    if CleanSlots(m, calls) {
      forall k, j | 0 <= k < |calls| && InFrame(calls[k], j)
        ensures CleanSlot(m', calls[k], j)
      {
        assert CleanSlot(m, calls[k], j);
      }
    }
    if CleanSlots(m', calls) {
      forall k, j | 0 <= k < |calls| && InFrame(calls[k], j)
        ensures CleanSlot(m, calls[k], j)
      {
        assert CleanSlot(m', calls[k], j);
      }
    }
  }

  lemma {:induction false} CellFrom(m: Mem, m': Mem, lo: int, p: int)
    requires SameFrom(m, m', lo) && lo <= p
    ensures Read64(m', p) == Read64(m, p)
  {
  }

  // ---------------------------------------------------------------- call and return

  ghost predicate CleanArgs(args: seq<int>) {
    forall i | 0 <= i < |args| :: args[i] < W32
  }

  /** A new frame has zero locals and the arguments it is given. */
  lemma {:induction false} FrameCleanExact(c: CallState, info: FrameInfo, args: seq<int>, ra: int, d: CallState,
          calls: seq<Activation>)
    requires FrameBuilt(c, info, args, ra, d) && info.locals >= 0
    requires StackOk(c.mem, CallRegisters(c.fp, c.sp, c.frames), calls) && CleanSlots(c.mem, calls)
    ensures CleanSlots(d.mem, calls + [Activation(info, c.fp, c.sp, ra)]) <==> CleanArgs(args)
  {
    hide Get, Read32, Read64, StackOk, SameOutside, FrameBuilt;
    var a := Activation(info, c.fp, c.sp, ra);
    var more := calls + [a];
    OlderSlots(c, info, args, ra, d, calls);
    if CleanArgs(args) {
      forall k, j | 0 <= k < |more| && InFrame(more[k], j)
        ensures CleanSlot(d.mem, more[k], j)
      {
        if k == |calls| {
          NewSlot(c, info, args, ra, d, j);
        } else {
          assert CleanSlot(d.mem, calls[k], j);
        }
      }
    }
    if CleanSlots(d.mem, more) {
      forall i | 0 <= i < |args|
        ensures args[i] < W32
      {
        ArgsCounted(c, info, args, ra, d);
        assert InFrame(more[|calls|], |args| - i) && CleanSlot(d.mem, more[|calls|], |args| - i);
        NewSlot(c, info, args, ra, d, |args| - i);
      }
    }
  }

  lemma {:induction false} ArgsCounted(c: CallState, info: FrameInfo, args: seq<int>, ra: int, d: CallState)
    requires FrameBuilt(c, info, args, ra, d)
    ensures |args| == info.args
  {
  }

  lemma {:induction false} NewSlot(c: CallState, info: FrameInfo, args: seq<int>, ra: int, d: CallState, j: int)
    requires FrameBuilt(c, info, args, ra, d) && InFrame(Activation(info, c.fp, c.sp, ra), j)
    ensures |args| == info.args
    ensures Read64(d.mem, SlotCell(Activation(info, c.fp, c.sp, ra), j)) == if j > 0 then args[|args| - j] else 0
  {
    hide Read32, Read64, SameOutside;
    assert d.fp - 8 * (-j) == d.fp + 8 * j;
  }

  lemma {:induction false} OlderSlots(c: CallState, info: FrameInfo, args: seq<int>, ra: int, d: CallState,
          calls: seq<Activation>)
    requires FrameBuilt(c, info, args, ra, d) && StackOk(c.mem, CallRegisters(c.fp, c.sp, c.frames), calls)
    requires CleanSlots(c.mem, calls)
    ensures CleanSlots(d.mem, calls)
  {
    hide Get, Read32, Read64, StackOk, CleanSlots;
    assert SameFrom(c.mem, d.mem, c.sp);
    SlotsSame(c.mem, d.mem, CallRegisters(c.fp, c.sp, c.frames), calls);
  }

  // ---------------------------------------------------------------- stores

  function WordByte(w: nat, k: int): Byte {
    if k == 0 then w % 0x100
    else if k == 1 then w / 0x100 % 0x100
    else if k == 2 then w / 0x1_0000 % 0x100
    else w / 0x100_0000 % 0x100
  }

  /** The byte of a value written at a that comes to x. */
  function ByteAt(raw: nat, a: int, x: int): Byte {
    if x < a + 4 then WordByte(raw % W32, x - a) else WordByte(raw / W32 % W32, x - a - 4)
  }

  /** n bytes of a value written at an address. */
  ghost predicate Stored(m: Mem, m': Mem, a: int, n: int, raw: nat) {
    forall x :: Get(m', x) == if a <= x < a + n then ByteAt(raw, a, x) else Get(m, x)
  }

  lemma {:induction false} WordBytes(m: Mem, a: int, w: nat)
    ensures forall x :: Get(Write32(m, a, w), x) == if a <= x < a + 4 then WordByte(w, x - a) else Get(m, x)
  {
  }

  lemma {:induction false} StoredTyped(m: Mem, a: int, v: Value)
    ensures Stored(m, WriteTyped(m, a, v), a, Width(v.ty), v.raw)
  {
    hide Get, Write32, WordByte;
    WordBytes(m, a, v.raw % W32);
    if IsWide(v.ty) {
      RawHalves(v.raw);
      WordBytes(Write32(m, a, v.raw % W32), a + 4, v.raw / W32 % W32);
    }
  }

  lemma {:induction false} RawHalves(raw: nat)
    ensures raw % W64 % W32 == raw % W32 && raw % W64 / W32 % W32 == raw / W32 % W32
  {
    assert W64 == W32 * W32;
  }

  /** A store puts something else than zero into the high half of a slot. */
  ghost predicate HighBytes(calls: seq<Activation>, a: int, n: int, raw: nat) {
    exists k, j | 0 <= k < |calls| && InFrame(calls[k], j) :: DirtyCell(SlotCell(calls[k], j), a, n, raw)
  }

  predicate DirtyCell(p: int, a: int, n: int, raw: nat) {
    exists x | p + 4 <= x < p + 8 && a <= x < a + n :: ByteAt(raw, a, x) != 0
  }

  /** Slots after a store: clean exactly when no high half gets a byte that is not zero. */
  lemma {:induction false} StoreCleanExact(m: Mem, m': Mem, calls: seq<Activation>, a: int, n: int, raw: nat)
    requires Stored(m, m', a, n, raw) && CleanSlots(m, calls)
    ensures CleanSlots(m', calls) <==> !HighBytes(calls, a, n, raw)
  {
    hide Get, Read32, Read64, Stored, DirtyCell;
    forall k, j | 0 <= k < |calls| && InFrame(calls[k], j)
      ensures CleanSlot(m', calls[k], j) <==> !DirtyCell(SlotCell(calls[k], j), a, n, raw)
    {
      assert CleanSlot(m, calls[k], j);
      CellCleanExact(m, m', SlotCell(calls[k], j), a, n, raw);
    }
  }

  lemma {:induction false} CellCleanExact(m: Mem, m': Mem, p: int, a: int, n: int, raw: nat)
    requires Stored(m, m', a, n, raw) && Read64(m, p) < W32
    ensures Read64(m', p) < W32 <==> !DirtyCell(p, a, n, raw)
  {
    hide ByteAt;
    HighHalf(m, p);
    HighHalf(m', p);
    if forall x | p + 4 <= x < p + 8 :: Get(m', x) == 0 {
      forall x | p + 4 <= x < p + 8 && a <= x < a + n
        ensures ByteAt(raw, a, x) == 0
      {
        assert Get(m', x) == 0;
      }
    }
  }

  lemma {:induction false} HighHalf(m: Mem, p: int)
    ensures Read64(m, p) < W32 <==> forall x | p + 4 <= x < p + 8 :: Get(m, x) == 0
  {
    hide Get;
    assert Read64(m, p) < W32 <==> Read32(m, p + 4) == 0;
  }

  /** What a store through an address may hit: the data section, the payload of a live block, or the call
      stack beside the base cells. */
  ghost predicate Target(s: State, g: Shadow, a: int, n: int) {
    a + n <= s.hb || InPayload(g.live, a, n) || BesideBases(s.sp, g.calls, a, n)
  }

  ghost predicate InPayload(live: HeapRuns.Blocks, a: int, n: int) {
    exists b | b in live :: b + HEADER <= a && a + n <= b + live[b]
  }

  ghost predicate BesideBases(sp: int, calls: seq<Activation>, a: int, n: int) {
    sp <= a && forall k | 0 <= k < |calls| :: Beside(calls[k], a, n)
  }

  predicate Beside(c: Activation, a: int, n: int) {
    a + n <= Base(c) || Base(c) + 8 <= a
  }

  lemma {:induction false} StoreSeparated(s: State, g: Shadow, m': Mem, a: int, n: int, raw: nat)
    requires Separated(MemoryOf(s), g, s.hb) && Target(s, g, a, n) && Stored(s.mem, m', a, n, raw)
    ensures Separated(MemoryOf(s).(mem := m'), g, s.hb)
  {
    hide HeapRuns.HeapOk, StackOk, Get, ByteAt, Read32;
    var m := MemoryOf(s);
    HpInside(m, g, s.hb);
    if BesideBases(s.sp, g.calls, a, n) {
      HeapKept(HeapOf(m), m', g.live, s.hb);
      BasesKept(s.mem, m', m.calls, g.calls);
    } else {
      if a + n <= s.hb {
        HeapKept(HeapOf(m), m', g.live, s.hb);
      } else {
        PayloadKept(HeapOf(m), m', g.live, s.hb, a, n, raw);
      }
      StackKept(s.mem, m', m.calls, g.calls);
    }
  }

  /** A store inside a payload touches no header and stays in the heap. */
  lemma {:induction false} PayloadKept(h: Heap.HeapState, m': Mem, live: HeapRuns.Blocks, hb: int, a: int, n: int,
          raw: nat)
    requires HeapRuns.HeapOk(h, live, hb) && InPayload(live, a, n) && Stored(h.mem, m', a, n, raw)
    ensures HeapRuns.HeapOk(h.(mem := m'), live, hb) && a + n <= h.hp
  {
    hide HeapLaws.Canonical, HeapLaws.Offers, HeapLaws.SumFree, HeapRuns.SumLive, HeapRuns.Live, Read32, Get, ByteAt;
    var b :| b in live && b + HEADER <= a && a + n <= b + live[b];
    forall c | c in live
      ensures Read32(m', c) == live[c]
    {
      assert c + HEADER <= a || a + n <= c by {
        if c < b {
          assert c + live[c] <= b;
        } else if b < c {
          assert b + live[b] <= c;
        }
      }
      HeapRuns.SameWord(h.mem, m', c);
    }
  }

  /** The frames depend on the base cells only. */
  lemma {:induction false} BasesKept(m: Mem, m': Mem, r: CallRegisters, calls: seq<Activation>)
    requires StackOk(m, r, calls)
    requires forall k | 0 <= k < |calls| :: SameBase(m, m', calls[k])
    ensures StackOk(m', r, calls)
    decreases |calls|
  {
    hide Get, Read32;
    if calls != [] {
      var c := calls[|calls| - 1];
      assert SameBase(m, m', c);
      HeapRuns.SameWord(m, m', r.fp);
      HeapRuns.SameWord(m, m', r.fp + 4);
      BasesKept(m, m', CallRegisters(c.fp, c.sp, r.frames[..|r.frames| - 1]), calls[..|calls| - 1]);
    }
  }

  ghost predicate SameBase(m: Mem, m': Mem, c: Activation) {
    forall x | Base(c) <= x < Base(c) + 8 :: Get(m', x) == Get(m, x)
  }

  // ---------------------------------------------------------------- aligned stores

  /** Two slots are the same or eight bytes apart. */
  lemma {:induction false} CellsApart(m: Mem, r: CallRegisters, calls: seq<Activation>, k: nat, j: int, l: nat, i: int)
    requires StackOk(m, r, calls) && k < |calls| && l < |calls| && InFrame(calls[k], j) && InFrame(calls[l], i)
    ensures (k == l && j == i) || SlotCell(calls[k], j) + 8 <= SlotCell(calls[l], i)
      || SlotCell(calls[l], i) + 8 <= SlotCell(calls[k], j)
  {
    hide StackOk;
    if k < l {
      FramesApart(m, r, calls, k, l);
    } else if l < k {
      FramesApart(m, r, calls, l, k);
    }
  }

  /** Stores aligned to a slot: eight bytes dirty it exactly when the value has more than 32 bits, four bytes
      at its start never, four bytes at its high half exactly when they are not zero. */
  lemma {:induction false} AlignedStoreExact(m: Mem, r: CallRegisters, calls: seq<Activation>, k: nat, j: int, raw: nat)
    requires StackOk(m, r, calls) && k < |calls| && InFrame(calls[k], j)
    ensures HighBytes(calls, SlotCell(calls[k], j), 8, raw) <==> raw % W64 >= W32
    ensures !HighBytes(calls, SlotCell(calls[k], j), 4, raw)
    ensures HighBytes(calls, SlotCell(calls[k], j) + 4, 4, raw) <==> raw % W32 != 0
  {
    hide StackOk, ByteAt, InFrame, SlotCell;
    var p := SlotCell(calls[k], j);
    HighWordBytes(p, raw);
    forall l, i | 0 <= l < |calls| && InFrame(calls[l], i)
      ensures !DirtyCell(SlotCell(calls[l], i), p, 4, raw)
      ensures (l == k && i == j) || (!DirtyCell(SlotCell(calls[l], i), p, 8, raw)
        && !DirtyCell(SlotCell(calls[l], i), p + 4, 4, raw))
    {
      CellsApart(m, r, calls, k, j, l, i);
    }
  }

  lemma {:induction false} HighWordBytes(p: int, raw: nat)
    ensures DirtyCell(p, p, 8, raw) <==> raw % W64 >= W32
    ensures DirtyCell(p, p + 4, 4, raw) <==> raw % W32 != 0
  {
    RawHalves(raw);
    ZeroBytes(raw / W32 % W32);
    ZeroBytes(raw % W32);
    if raw / W32 % W32 != 0 {
      var d :| 0 <= d < 4 && WordByte(raw / W32 % W32, d) != 0;
      assert ByteAt(raw, p, p + 4 + d) != 0;
    }
    if raw % W32 != 0 {
      var d :| 0 <= d < 4 && WordByte(raw % W32, d) != 0;
      assert ByteAt(raw, p + 4, p + 4 + d) != 0;
    }
  }

  lemma {:induction false} ZeroBytes(w: nat)
    requires IsWord(w)
    ensures w != 0 <==> exists d :: 0 <= d < 4 && WordByte(w, d) != 0
  {
    FourBytes(w);
    if forall d | 0 <= d < 4 :: WordByte(w, d) == 0 {
      assert WordByte(w, 0) == 0 && WordByte(w, 1) == 0 && WordByte(w, 2) == 0 && WordByte(w, 3) == 0;
    }
  }

  // ---------------------------------------------------------------- one step

  /** What generated code respects: it releases live blocks, stores through addresses to targets and to slots
      other than 0, and runs inside the address space. */
  ghost predicate Permitted(s: State, g: Shadow, i: Instr<int>) {
    match i
    case Free => |s.stack| > 0 ==> Low(Top(s, 0)) - HEADER in g.live
    case Store => |s.stack| > 1 ==> Target(s, g, Low(Top(s, 1)), Width(Top(s, 0).ty))
    case StoreB => |s.stack| > 1 ==> Target(s, g, Low(Top(s, 1)), 1)
    case StoreG(a) => |s.stack| > 0 ==> a + Width(Top(s, 0).ty) <= s.hb
    case StoreL(off) => off != 0
    case Call(_) => IsWord(s.pc)
    case _ => true
  }

  /** The instructions that give a 32-bit operand or slot a high half. */
  ghost predicate Dirties(code: Code, s: State, g: Shadow, i: Instr<int>) {
    match i
    case Not => |s.stack| > 0 && !IsWide(Top(s, 0).ty)
    case LoadL(ty, off) => !IsWide(ty) && off == 0 && g.calls != [] && g.calls[|g.calls| - 1].ra != 0
    case StoreL(_) => |s.stack| > 0 && Top(s, 0).raw % W64 >= W32
    case Call(a) => a in code.headers && code.headers[a].args <= |s.stack|
      && !CleanArgs(PopArgs(s, code.headers[a].args))
    case Store => |s.stack| > 1 && HighBytes(g.calls, Low(Top(s, 1)), Width(Top(s, 0).ty), Top(s, 0).raw)
    case StoreB => |s.stack| > 1 && HighBytes(g.calls, Low(Top(s, 1)), 1, Top(s, 0).raw)
    case _ => false
  }

  /** Live blocks and calls after the instruction. */
  ghost function Next(code: Code, s: State, g: Shadow, i: Instr<int>): Shadow {
    var r := OpOf(code, s, i);
    if r.Ok? && Allowed(MemoryOf(s), g, r.value) && Do(MemoryOf(s), r.value).Ok? then Track(MemoryOf(s), g, r.value)
    else g
  }

  lemma {:induction false} OpAllowed(code: Code, s: State, g: Shadow, i: Instr<int>)
    requires Permitted(s, g, i) && OpOf(code, s, i).Ok? && Do(MemoryOf(s), OpOf(code, s, i).value).Ok?
    ensures Allowed(MemoryOf(s), g, OpOf(code, s, i).value)
  {
    hide Enter, Leave, SlotAddress, Heap.Deallocate;
  }

  /** A narrow load is clean but for slot 0, which is the saved frame pointer and the return address. */
  lemma {:induction false} LoadsWideExact(s: State, g: Shadow, ty: Ty, off: int)
    requires CleanState(s, g)
    requires SlotAddress(s.Calls(), off).Ok?
    ensures LoadsWide(s, LoadL(ty, off)) <==> !IsWide(ty) && off == 0 && g.calls != [] && g.calls[|g.calls| - 1].ra != 0
  {
    hide Read32, HeapRuns.HeapOk, CleanStack;
    var r := MemoryOf(s).calls;
    StackBounds(s.mem, r, g.calls);
    var l := |g.calls| - 1;
    FrameBounds(s.mem, r, g.calls, l);
    if off != 0 {
      SlotIs(s, g, off);
      assert CleanSlot(s.mem, g.calls[l], off);
    }
  }

  /** The address of a slot is the cell of the innermost frame. */
  lemma {:induction false} SlotIs(s: State, g: Shadow, off: int)
    requires StackOk(s.mem, MemoryOf(s).calls, g.calls) && off != 0 && SlotAddress(s.Calls(), off).Ok?
    ensures g.calls != [] && var c := g.calls[|g.calls| - 1];
      InFrame(c, off) && SlotAddress(s.Calls(), off).value == SlotCell(c, off)
  {
    hide Read32;
    var r := MemoryOf(s).calls;
    StackBounds(s.mem, r, g.calls);
    if g.calls != [] {
      FrameBounds(s.mem, r, g.calls, |g.calls| - 1);
    }
  }

  lemma {:induction false} StoreLClean(s: State, g: Shadow, off: int, u: State)
    requires CleanState(s, g) && off != 0 && s.status == Running && u == ExecStoreL(s, off) && u.status == Running
    ensures CleanSlots(u.mem, g.calls) <==> Top(s, 0).raw % W64 < W32
  {
    hide Separated, StackOk, HighBytes, Stored, CleanSlots, Get, SlotAddress;
    var raw := Top(s, 0).raw;
    assert StackOk(s.mem, MemoryOf(s).calls, g.calls) by { StackOf(s, g); }
    SlotIs(s, g, off);
    var l := |g.calls| - 1;
    StoredTyped(s.mem, SlotAddress(s.Calls(), off).value, Value(UI64, raw));
    StoreCleanExact(s.mem, u.mem, g.calls, SlotCell(g.calls[l], off), 8, raw);
    AlignedStoreExact(s.mem, MemoryOf(s).calls, g.calls, l, off, raw);
  }

  lemma {:induction false} StackOf(s: State, g: Shadow)
    requires Separated(MemoryOf(s), g, s.hb)
    ensures StackOk(s.mem, MemoryOf(s).calls, g.calls)
  {
    hide HeapRuns.HeapOk, StackOk;
  }

  /** Instructions that allocate, release, call, return or store to a slot. */
  lemma {:induction false} OperationClean(code: Code, s: State, g: Shadow, i: Instr<int>)
    requires i.Alloc? || i.Free? || i.StoreL? || i.Ret? || i.Call?
    requires CleanState(s, g) && Permitted(s, g, i) && s.status == Running && Execute(code, s, i).status == Running
    ensures var (u, h) := (Execute(code, s, i), Next(code, s, g, i));
      Separated(MemoryOf(u), h, s.hb) && (CleanSlots(u.mem, h.calls) <==> !Dirties(code, s, g, i))
  {
    hide Separated, StackOk, CleanSlots, CleanStack, Get, SlotAddress, Heap.Allocate, Heap.Deallocate, Enter, Leave,
      PopArgs, Allowed, FrameBuilt;
    MachineDoes(code, s, i);
    OpAllowed(code, s, g, i);
    var m, op := MemoryOf(s), OpOf(code, s, i).value;
    StepSeparated(m, g, s.hb, op);
    StackOf(s, g);
    match i {
      case StoreL(off) => StoreLClean(s, g, off, Execute(code, s, i));
      case Call(a) => CallClean(s, g, op);
      case Ret => RetClean(s, g);
      case _ => SlotsSame(s.mem, Execute(code, s, i).mem, m.calls, g.calls);
    }
  }

  lemma {:induction false} CallClean(s: State, g: Shadow, op: Op)
    requires CleanState(s, g) && op.CallOp? && Allowed(MemoryOf(s), g, op) && Do(MemoryOf(s), op).Ok?
    ensures CleanSlots(Do(MemoryOf(s), op).value.mem, Track(MemoryOf(s), g, op).calls) <==> CleanArgs(op.args)
  {
    hide Separated, StackOk, CleanSlots, CleanStack, Get, Enter, FrameBuilt, RawArgs;
    var m := MemoryOf(s);
    CallSeparated(m, g, s.hb, op.info, op.args, op.ra);
    LocalsCounted(CallsOf(m), m.hp, op.info, op.args, op.ra);
    StackOf(s, g);
    FrameCleanExact(CallsOf(m), op.info, op.args, op.ra, CallsOf(Do(m, op).value), g.calls);
  }

  lemma {:induction false} RetClean(s: State, g: Shadow)
    requires CleanState(s, g) && Do(MemoryOf(s), RetOp).Ok?
    ensures CleanSlots(Do(MemoryOf(s), RetOp).value.mem, Track(MemoryOf(s), g, RetOp).calls)
  {
    hide Separated, StackOk, CleanStack, Leave, CleanSlot;
    RetSeparated(MemoryOf(s), g, s.hb);
    var older := g.calls[..|g.calls| - 1];
    forall k, j | 0 <= k < |older| && InFrame(older[k], j)
      ensures CleanSlot(s.mem, older[k], j)
    {
      assert InFrame(g.calls[k], j);
    }
  }

  /** Stores through addresses. */
  lemma {:induction false} AddressedClean(code: Code, s: State, g: Shadow, i: Instr<int>)
    requires i.Store? || i.StoreB? || i.StoreG?
    requires CleanState(s, g) && Permitted(s, g, i) && s.status == Running && Execute(code, s, i).status == Running
    ensures var u := Execute(code, s, i);
      Separated(MemoryOf(u), g, s.hb) && (CleanSlots(u.mem, g.calls) <==> !Dirties(code, s, g, i))
  {
    hide Separated, StackOk, HighBytes, Stored, CleanSlots, CleanStack, Get, Target, WriteTyped;
    var u := Execute(code, s, i);
    match i {
      case Store =>
        var a, v := Low(Top(s, 1)), Top(s, 0);
        StoredTyped(s.mem, a, v);
        StoreSeparated(s, g, u.mem, a, Width(v.ty), v.raw);
        StoreCleanExact(s.mem, u.mem, g.calls, a, Width(v.ty), v.raw);
      case StoreB =>
        var a, v := Low(Top(s, 1)), Top(s, 0);
        StoredByte(s.mem, a, v.raw);
        StoreSeparated(s, g, u.mem, a, 1, v.raw);
        StoreCleanExact(s.mem, u.mem, g.calls, a, 1, v.raw);
      case StoreG(a) =>
        var v := Top(s, 0);
        StoredTyped(s.mem, a, v);
        assert Target(s, g, a, Width(v.ty)) by { DataTarget(s, g, a, Width(v.ty)); }
        StoreSeparated(s, g, u.mem, a, Width(v.ty), v.raw);
        StackOf(s, g);
        DataBelow(s, g, u.mem, a, Width(v.ty), v.raw);
        SlotsSame(s.mem, u.mem, MemoryOf(s).calls, g.calls);
    }
  }

  lemma {:induction false} StoredByte(m: Mem, a: int, raw: nat)
    ensures Stored(m, Write8(m, a, raw % 256), a, 1, raw)
  {
  }

  lemma {:induction false} DataTarget(s: State, g: Shadow, a: int, n: int)
    requires a + n <= s.hb
    ensures Target(s, g, a, n)
  {
  }

  lemma {:induction false} DataBelow(s: State, g: Shadow, m': Mem, a: int, n: int, raw: nat)
    requires Separated(MemoryOf(s), g, s.hb) && a + n <= s.hb && Stored(s.mem, m', a, n, raw)
    ensures SameFrom(s.mem, m', s.sp)
  {
    hide HeapRuns.HeapOk, StackOk, Get, ByteAt;
  }

  /** Every permitted instruction keeps heap and call stack sound and all 32-bit operands and slots clean,
      except exactly the ones named by `Dirties`. */
  lemma {:induction false} StepCleanExact(code: Code, s: State, g: Shadow, i: Instr<int>)
    requires CleanState(s, g) && Decoded(i) && Permitted(s, g, i) && s.status == Running
    requires Execute(code, s, i).status == Running
    ensures var (u, h) := (Execute(code, s, i), Next(code, s, g, i));
      Separated(MemoryOf(u), h, s.hb) && (CleanStack(u.stack) && CleanSlots(u.mem, h.calls)
        <==> !Dirties(code, s, g, i))
  {
    hide Separated, StackOk, CleanSlots, CleanStack, HighBytes, Target, Get, Read64, Read32, SlotAddress, PopArgs,
      Allowed, Do, Track, CleanArgs, MemoryOf;
    CleanStepExact(code, s, i);
    if i.Alloc? || i.Free? || i.StoreL? || i.Ret? || i.Call? {
      OperationClean(code, s, g, i);
    } else if i.Store? || i.StoreB? || i.StoreG? {
      AddressedClean(code, s, g, i);
    } else {
      MemoryStays(code, s, i);
      SameMemory(s, Execute(code, s, i));
      if i.LoadL? {
        LoadsWideExact(s, g, i.ty, i.offset);
      }
    }
  }

  lemma {:induction false} SameMemory(s: State, u: State)
    requires MemoryOf(u) == MemoryOf(s)
    ensures u.mem == s.mem
  {
  }

  // ---------------------------------------------------------------- whole runs

  /** Every instruction of the next k steps is decoded and permitted, and none of them is named by `Dirties`. */
  ghost predicate Orderly(code: Code, s: State, g: Shadow, k: nat)
    decreases k
  {
    k > 0 && s.status == Running && s.pc in code.ops ==>
      var i := code.ops[s.pc];
      var t := s.(pc := s.pc + Size(i));
      && Decoded(i) && Permitted(t, g, i) && !Dirties(code, t, g, i)
      && Orderly(code, Execute(code, t, i), Next(code, t, g, i), k - 1)
  }

  /** A program starts clean. */
  lemma {:induction false} InitiallyClean(mem: Mem, dataStart: int, hb: int)
    requires 0 <= hb < MAX_ADDR
    ensures CleanState(Program.Initial(mem, dataStart, hb), Shadow(map[], []))
  {
    InitiallySeparated(mem, hb);
  }

  /** Such a run stays clean as long as it goes. */
  lemma {:induction false} RunStaysClean(code: Code, s: State, g: Shadow, k: nat) returns (h: Shadow)
    requires CleanState(s, g) && Orderly(code, s, g, k) && Run(code, s, k).status == Running
    ensures CleanState(Run(code, s, k), h)
    decreases k
  {
    hide CleanStack, CleanSlots, Separated, Permitted, Dirties, Execute, Next, Decoded;
    h := g;
    if k > 0 {
      var u := Step(code, s);
      if u.status != Running {
        Stays(code, u, k - 1);
      } else {
        if s.status != Running {
          Stays(code, s, k);
        }
        var i := code.ops[s.pc];
        var t := s.(pc := s.pc + Size(i));
        PcFree(s, t, g);
        StepCleanExact(code, t, g, i);
        BaseStays(code, t, i);
        h := RunStaysClean(code, u, Next(code, t, g, i), k - 1);
      }
    }
  }

  lemma {:induction false} PcFree(s: State, t: State, g: Shadow)
    requires CleanState(s, g) && t == s.(pc := t.pc)
    ensures CleanState(t, g)
  {
    hide Separated;
    assert MemoryOf(t) == MemoryOf(s);
  }

  lemma {:induction false} BaseStays(code: Code, s: State, i: Instr<int>)
    ensures Execute(code, s, i).hb == s.hb
  {
    hide Heap.Allocate, Heap.Deallocate, Enter, Leave, SlotAddress, Write64, PopArgs, Apply, ConvertTo, BitNot, Read64,
      Read32, Get;
  }

  // ---------------------------------------------------------------- what cleanliness is for

  /** A four-byte store through the address of a slot followed by an eight-byte load of the slot gives the
      stored word, and leaves every slot clean. */
  lemma {:induction false} StoreThenLoadL(s: State, g: Shadow, off: int, v: Value)
    requires CleanState(s, g) && off != 0 && SlotAddress(s.Calls(), off).Ok? && !IsWide(v.ty)
    ensures var a := SlotAddress(s.Calls(), off).value;
      var m' := WriteTyped(s.mem, a, v);
      Read64(m', a) == Low(v) && CleanSlots(m', g.calls)
  {
    hide Separated, StackOk, HighBytes, Stored, Get, SlotAddress, Read32, Write32;
    StackOf(s, g);
    SlotIs(s, g, off);
    var l := |g.calls| - 1;
    var p := SlotCell(g.calls[l], off);
    assert CleanSlot(s.mem, g.calls[l], off);
    Store32Load64(s.mem, p, Low(v));
    StoredTyped(s.mem, p, v);
    StoreCleanExact(s.mem, WriteTyped(s.mem, p, v), g.calls, p, 4, v.raw);
    AlignedStoreExact(s.mem, MemoryOf(s).calls, g.calls, l, off, v.raw);
  }
}
