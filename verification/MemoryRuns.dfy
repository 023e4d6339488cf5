/** The VM's memory over whole runs: heap and call stack share one memory and never meet. */
module MemoryRuns {
  import opened Words
  import opened Isa
  import opened FlatMemory
  import opened Heap
  import opened HeapLaws
  import opened HeapRuns
  import opened Frames
  import opened FrameLaws

  /** Memory and the registers over it; the operand stack and PC play no part. */
  datatype Memory = Memory(mem: Mem, free: FreeList, hp: int, calls: CallRegisters)

  datatype CallRegisters = CallRegisters(fp: int, sp: int, frames: seq<FrameInfo>)

  function HeapOf(m: Memory): HeapState {
    HeapState(m.mem, m.free, m.hp)
  }

  function CallsOf(m: Memory): CallState {
    CallState(m.mem, m.calls.fp, m.calls.sp, m.calls.frames)
  }

  datatype Op =
    | AllocOp(size: int)
    | FreeOp(p: int)
    | CallOp(info: FrameInfo, args: seq<int>, ra: int)
    | RetOp
    | HeapStore(a: int, b: Byte)
    | SlotStore(slot: int, w: int)

  predicate OpOk(op: Op) {
    (op.AllocOp? ==> IsWord(op.size)) && (op.CallOp? ==> |op.args| == op.info.args)
  }

  predicate OpsOk(ops: seq<Op>) {
    forall i | 0 <= i < |ops| :: OpOk(ops[i])
  }

  function Do(m: Memory, op: Op): Outcome<Memory>
    requires OpOk(op)
  {
    match op
    case AllocOp(size) => (
      match Allocate(HeapOf(m), size, m.calls.sp)
      case Ok((h, _)) => Ok(m.(mem := h.mem, free := h.free, hp := h.hp))
      case Err(f) => Err(f))
    case FreeOp(p) => Ok(m.(free := Deallocate(HeapOf(m), p).free))
    case CallOp(info, args, ra) => (
      match Enter(CallsOf(m), m.hp, info, args, ra)
      case Ok(c) => Ok(m.(mem := c.mem, calls := CallRegisters(c.fp, c.sp, c.frames)))
      case Err(f) => Err(f))
    case RetOp => (
      match Leave(CallsOf(m))
      case Ok((c, _)) => Ok(m.(calls := CallRegisters(c.fp, c.sp, c.frames)))
      case Err(f) => Err(f))
    case HeapStore(a, b) => Ok(m.(mem := Write8(m.mem, a, b)))
    case SlotStore(slot, w) => (
      match SlotAddress(CallsOf(m), slot)
      case Ok(a) => Ok(m.(mem := Write64(m.mem, a, w)))
      case Err(f) => Err(f))
  }

  // ---------------------------------------------------------------- the abstract state

  /** What a call remembers about its caller. */
  datatype Activation = Activation(info: FrameInfo, fp: int, sp: int, ra: int)

  /** Live heap blocks, and the calls in progress, innermost last. */
  datatype Shadow = Shadow(live: Blocks, calls: seq<Activation>)

  /** The frames in memory are those of the calls in progress: each base cell holds its caller's frame
      pointer and its return address, and the frames fill the call stack without gaps. */
  ghost predicate StackOk(m: Mem, r: CallRegisters, calls: seq<Activation>)
    decreases |calls|
  {
    if calls == [] then r == CallRegisters(MAX_ADDR, MAX_ADDR, [])
    else
      var c := calls[|calls| - 1];
      && r.frames != [] && r.frames[|r.frames| - 1] == c.info && c.info.locals >= 0
      && r.fp == c.sp - 8 - 8 * c.info.args && r.sp == r.fp - 8 * c.info.locals && 0 <= r.sp
      && IsWord(c.fp) && IsWord(c.ra)
      && Read32(m, r.fp) == c.fp && Read32(m, r.fp + 4) == c.ra
      && StackOk(m, CallRegisters(c.fp, c.sp, r.frames[..|r.frames| - 1]), calls[..|calls| - 1])
  }

  ghost predicate Separated(m: Memory, g: Shadow, hb: int) {
    && HeapOk(HeapOf(m), g.live, hb)
    && hb <= m.hp < m.calls.sp
    && StackOk(m.mem, m.calls, g.calls)
  }

  /** Pointers released are live, stores go to live payloads or to slots: what generated code does. */
  ghost predicate Allowed(m: Memory, g: Shadow, op: Op) {
    match op
    case AllocOp(size) => IsWord(size) && size > 0
    case FreeOp(p) => p - HEADER in g.live
    case CallOp(info, args, ra) => |args| == info.args && RawArgs(args) && IsWord(ra)
    case RetOp => true
    case HeapStore(a, _) => exists b | b in g.live :: b + HEADER <= a < b + g.live[b]
    case SlotStore(slot, w) => slot != 0 && 0 <= w < W64
  }

  /** The abstract effect of an operation that succeeded. */
  ghost function Track(m: Memory, g: Shadow, op: Op): Shadow
    requires Allowed(m, g, op) && Do(m, op).Ok?
  {
    match op
    case AllocOp(size) => g.(live := g.live[Allocate(HeapOf(m), size, m.calls.sp).value.1 - HEADER := size + HEADER])
    case FreeOp(p) => g.(live := g.live - {p - HEADER})
    case CallOp(info, args, ra) => g.(calls := g.calls + [Activation(info, m.calls.fp, m.calls.sp, ra)])
    case RetOp => if g.calls == [] then g else g.(calls := g.calls[..|g.calls| - 1])
    case HeapStore(_, _) => g
    case SlotStore(_, _) => g
  }

  // ---------------------------------------------------------------- frames

  lemma {:induction false} StackBounds(m: Mem, r: CallRegisters, calls: seq<Activation>)
    requires StackOk(m, r, calls)
    ensures r.sp <= r.fp <= MAX_ADDR && r.sp >= 0 && |r.frames| == |calls|
    ensures calls != [] ==> r.fp + 8 <= calls[|calls| - 1].sp <= MAX_ADDR
    decreases |calls|
  {
    if calls != [] {
      var c := calls[|calls| - 1];
      StackBounds(m, CallRegisters(c.fp, c.sp, r.frames[..|r.frames| - 1]), calls[..|calls| - 1]);
    }
  }

  /** Frames depend only on the base cells, which lie at or above SP. */
  lemma {:induction false} StackKept(m: Mem, m': Mem, r: CallRegisters, calls: seq<Activation>)
    requires StackOk(m, r, calls) && forall a | r.sp <= a :: Get(m', a) == Get(m, a)
    ensures StackOk(m', r, calls)
    decreases |calls|
  {
    if calls != [] {
      hide Get, Read32;
      var c := calls[|calls| - 1];
      StackBounds(m, r, calls);
      SameWord(m, m', r.fp);
      SameWord(m, m', r.fp + 4);
      StackKept(m, m', CallRegisters(c.fp, c.sp, r.frames[..|r.frames| - 1]), calls[..|calls| - 1]);
    }
  }

  /** A change inside the innermost frame that spares its base cell. */
  lemma {:induction false} StackKeptInFrame(m: Mem, m': Mem, r: CallRegisters, calls: seq<Activation>)
    requires StackOk(m, r, calls) && calls != []
    requires forall a | r.fp <= a < r.fp + 8 || calls[|calls| - 1].sp <= a :: Get(m', a) == Get(m, a)
    ensures StackOk(m', r, calls)
  {
    hide Get, Read32;
    var c := calls[|calls| - 1];
    SameWord(m, m', r.fp);
    SameWord(m, m', r.fp + 4);
    StackKept(m, m', CallRegisters(c.fp, c.sp, r.frames[..|r.frames| - 1]), calls[..|calls| - 1]);
  }

  /** The heap depends only on its headers, which lie below SP. */
  lemma {:induction false} HeapKept(h: HeapState, m': Mem, live: Blocks, hb: int)
    requires HeapOk(h, live, hb) && forall a | hb <= a < h.hp :: Get(m', a) == Get(h.mem, a)
    ensures HeapOk(h.(mem := m'), live, hb)
  {
    hide Canonical, Offers, SumFree, SumLive, Read32, Get, Live;
    forall a | a in live
      ensures Read32(m', a) == live[a]
    {
      SameWord(h.mem, m', a);
    }
  }

  // ---------------------------------------------------------------- one operation

  lemma {:induction false} InitiallySeparated(mem: Mem, hb: int)
    requires 0 <= hb < MAX_ADDR
    ensures Separated(Memory(mem, InitialList(hb), hb, CallRegisters(MAX_ADDR, MAX_ADDR, [])), Shadow(map[], []), hb)
  {
    InitiallyOk(mem, hb);
  }

  /** Bytes at and above an address are the same in both memories. */
  ghost predicate SameFrom(m: Mem, m': Mem, lo: int) {
    forall a | lo <= a :: Get(m', a) == Get(m, a)
  }

  ghost predicate SameHeap(m: Mem, m': Mem, hb: int, hp: int) {
    forall a | hb <= a < hp :: Get(m', a) == Get(m, a)
  }

  /** Address from which on an operation in the innermost frame may change nothing. */
  function CallerSp(m: Memory, g: Shadow): int {
    if g.calls == [] then m.calls.sp else g.calls[|g.calls| - 1].sp
  }

  lemma {:induction false} AllocSeparated(m: Memory, g: Shadow, hb: int, size: int)
    requires Separated(m, g, hb) && IsWord(size) && size > 0 && Do(m, AllocOp(size)).Ok?
    ensures var m' := Do(m, AllocOp(size)).value;
      Separated(m', Track(m, g, AllocOp(size)), hb) && SameFrom(m.mem, m'.mem, m.calls.sp)
  {
    hide HeapOk, Allocate, Get;
    AllocateKeeps(HeapOf(m), g.live, hb, size, m.calls.sp);
    StackKept(m.mem, Do(m, AllocOp(size)).value.mem, m.calls, g.calls);
  }

  lemma {:induction false} FreeSeparated(m: Memory, g: Shadow, hb: int, p: int)
    requires Separated(m, g, hb) && p - HEADER in g.live
    ensures Do(m, FreeOp(p)).Ok? && var m' := Do(m, FreeOp(p)).value;
      Separated(m', Track(m, g, FreeOp(p)), hb) && m'.mem == m.mem
  {
    hide HeapOk, Get;
    DeallocateKeeps(HeapOf(m), g.live, hb, p);
  }

  lemma {:induction false} LocalsCounted(c: CallState, hp: int, info: FrameInfo, args: seq<int>, ra: int)
    requires |args| == info.args && Enter(c, hp, info, args, ra).Ok?
    ensures info.locals >= 0
  {
  }

  /** A frame pushed on a sound stack: its base cell leads to the caller. */
  lemma {:induction false} StackPush(c: CallState, info: FrameInfo, args: seq<int>, ra: int, d: CallState,
          calls: seq<Activation>)
    requires StackOk(d.mem, CallRegisters(c.fp, c.sp, c.frames), calls) && FrameBuilt(c, info, args, ra, d)
    requires info.locals >= 0
    requires IsWord(c.fp) && IsWord(ra)
    ensures StackOk(d.mem, CallRegisters(d.fp, d.sp, d.frames), calls + [Activation(info, c.fp, c.sp, ra)])
  {
    hide Read32, Read64, Get, SameOutside;
    var more := calls + [Activation(info, c.fp, c.sp, ra)];
    assert more[..|more| - 1] == calls && d.frames[..|d.frames| - 1] == c.frames;
  }

  /** What lies outside a new frame is the heap below it and the frames above it. */
  lemma {:induction false} OutsideFrame(c: CallState, info: FrameInfo, args: seq<int>, ra: int, d: CallState, hb: int,
          hp: int)
    requires FrameBuilt(c, info, args, ra, d) && hp < d.sp
    ensures SameHeap(c.mem, d.mem, hb, hp) && SameFrom(c.mem, d.mem, c.sp)
  {
    hide Read32, Read64, Get;
  }

  lemma {:induction false} CallSeparated(m: Memory, g: Shadow, hb: int, info: FrameInfo, args: seq<int>, ra: int)
    requires Separated(m, g, hb) && |args| == info.args && RawArgs(args) && IsWord(ra)
    requires Do(m, CallOp(info, args, ra)).Ok?
    ensures var m' := Do(m, CallOp(info, args, ra)).value;
      && Separated(m', Track(m, g, CallOp(info, args, ra)), hb)
      && FrameBuilt(CallsOf(m), info, args, ra, CallsOf(m'))
      && SameHeap(m.mem, m'.mem, hb, m.hp) && SameFrom(m.mem, m'.mem, m.calls.sp)
  {
    hide HeapOk, Get, Read32, Read64, RawArgs, Enter, StackOk, FrameBuilt;
    var m' := Do(m, CallOp(info, args, ra)).value;
    HpInside(m, g, hb);
    StackBounds(m.mem, m.calls, g.calls);
    LocalsCounted(CallsOf(m), m.hp, info, args, ra);
    EnterBuilds(CallsOf(m), m.hp, info, args, ra);
    OutsideFrame(CallsOf(m), info, args, ra, CallsOf(m'), hb, m.hp);
    HeapKept(HeapOf(m), m'.mem, g.live, hb);
    StackKept(m.mem, m'.mem, m.calls, g.calls);
    StackPush(CallsOf(m), info, args, ra, CallsOf(m'), g.calls);
  }

  lemma {:induction false} HpInside(m: Memory, g: Shadow, hb: int)
    requires Separated(m, g, hb)
    ensures 0 <= hb <= m.hp <= MAX_ADDR
  {
  }

  /** ret returns to the recorded caller. */
  lemma {:induction false} RetReturns(m: Memory, g: Shadow, hb: int)
    requires Separated(m, g, hb) && g.calls != []
    ensures var c := g.calls[|g.calls| - 1];
      Leave(CallsOf(m)) == Outcome.Ok((CallState(m.mem, c.fp, c.sp, m.calls.frames[..|m.calls.frames| - 1]), c.ra))
  {
    hide HeapOk, Read32;
    StackBounds(m.mem, m.calls, g.calls);
  }

  lemma {:induction false} RetSeparated(m: Memory, g: Shadow, hb: int)
    requires Separated(m, g, hb) && Do(m, RetOp).Ok?
    ensures g.calls != [] && var m' := Do(m, RetOp).value; Separated(m', Track(m, g, RetOp), hb) && m'.mem == m.mem
  {
    hide HeapOk, Read32, Leave;
    StackBounds(m.mem, m.calls, g.calls);
    if g.calls == [] {
      NoFrameNoReturn(CallsOf(m));
    } else {
      RetReturns(m, g, hb);
    }
  }

  lemma {:induction false} NoFrameNoReturn(c: CallState)
    requires c.frames == []
    ensures Leave(c).Err?
  {
  }

  lemma {:induction false} HeapStoreSeparated(m: Memory, g: Shadow, hb: int, a: int, b: Byte)
    requires Separated(m, g, hb) && Allowed(m, g, HeapStore(a, b))
    ensures var m' := Do(m, HeapStore(a, b)).value;
      Separated(m', g, hb) && SameFrom(m.mem, m'.mem, m.calls.sp)
  {
    var k :| k in g.live && k + HEADER <= a < k + g.live[k];
    var m' := Do(m, HeapStore(a, b)).value;
    PayloadStore(HeapOf(m), g.live, hb, k, a, b);
    StackKept(m.mem, m'.mem, m.calls, g.calls);
  }

  /** A byte stored inside a payload touches no header. */
  lemma {:induction false} PayloadStore(h: HeapState, live: Blocks, hb: int, k: int, a: int, b: Byte)
    requires HeapOk(h, live, hb) && k in live && k + HEADER <= a < k + live[k]
    ensures HeapOk(h.(mem := Write8(h.mem, a, b)), live, hb) && a < h.hp
  {
    hide Canonical, Offers, SumFree, SumLive, Live, Read32;
    forall c | c in live
      ensures Read32(Write8(h.mem, a, b), c) == live[c]
    {
      assert c + HEADER <= a || a < c by {
        if c < k {
          assert c + live[c] <= k;
        } else if k < c {
          assert k + live[k] <= c;
        }
      }
      SameWord(h.mem, Write8(h.mem, a, b), c);
    }
  }

  /** A store to an argument or a local stays inside the innermost frame, off its base cell. */
  lemma {:induction false} SlotStoreSeparated(m: Memory, g: Shadow, hb: int, slot: int, w: int)
    requires Separated(m, g, hb) && slot != 0 && 0 <= w < W64 && Do(m, SlotStore(slot, w)).Ok?
    ensures var m' := Do(m, SlotStore(slot, w)).value;
      Separated(m', g, hb) && SameHeap(m.mem, m'.mem, hb, m.hp) && SameFrom(m.mem, m'.mem, CallerSp(m, g))
        && g.calls != []
  {
    hide HeapOk, Read32, Get, Write64, SlotAddress;
    StackBounds(m.mem, m.calls, g.calls);
    if g.calls == [] {
      NoFrameNoSlot(CallsOf(m), slot);
    }
    SlotInside(m, g, slot);
    var a := SlotAddress(CallsOf(m), slot).value;
    var m' := Do(m, SlotStore(slot, w)).value;
    forall x | x < a || a + 8 <= x
      ensures Get(m'.mem, x) == Get(m.mem, x)
    {
      Write64Elsewhere(m.mem, a, w, x);
    }
    HeapKept(HeapOf(m), m'.mem, g.live, hb);
    StackKeptInFrame(m.mem, m'.mem, m.calls, g.calls);
  }

  lemma {:induction false} NoFrameNoSlot(c: CallState, slot: int)
    requires c.frames == []
    ensures SlotAddress(c, slot).Err?
  {
  }

  lemma {:induction false} SlotInside(m: Memory, g: Shadow, slot: int)
    requires StackOk(m.mem, m.calls, g.calls) && g.calls != [] && slot != 0 && SlotAddress(CallsOf(m), slot).Ok?
    ensures var a := SlotAddress(CallsOf(m), slot).value;
      m.calls.sp <= a && a + 8 <= g.calls[|g.calls| - 1].sp && (a + 8 <= m.calls.fp || m.calls.fp + 8 <= a)
  {
    hide Read32;
    StackBounds(m.mem, m.calls, g.calls);
  }

  /** Every allowed operation keeps heap and call stack apart, and leaves alone what it has no business with:
      heap operations the frames, frame operations the heap, and all of them the frames of the callers. */
  lemma {:induction false} StepSeparated(m: Memory, g: Shadow, hb: int, op: Op)
    requires Separated(m, g, hb) && Allowed(m, g, op) && Do(m, op).Ok?
    ensures var m' := Do(m, op).value;
      && Separated(m', Track(m, g, op), hb)
      && (op.AllocOp? || op.FreeOp? || op.HeapStore? ==> SameFrom(m.mem, m'.mem, m.calls.sp) && m'.calls == m.calls)
      && (op.CallOp? || op.RetOp? || op.SlotStore? ==>
            SameHeap(m.mem, m'.mem, hb, m.hp) && m'.free == m.free && m'.hp == m.hp)
      && SameFrom(m.mem, m'.mem, CallerSp(m, g))
  {
    hide Separated, Allocate, Enter, Leave, SlotAddress, Deallocate, Get;
    CallerAbove(m, g, hb);
    match op
    case AllocOp(size) => AllocSeparated(m, g, hb, size);
    case FreeOp(p) => FreeSeparated(m, g, hb, p);
    case CallOp(info, args, ra) => CallSeparated(m, g, hb, info, args, ra);
    case RetOp => RetSeparated(m, g, hb);
    case HeapStore(a, b) => HeapStoreSeparated(m, g, hb, a, b);
    case SlotStore(slot, w) => SlotStoreSeparated(m, g, hb, slot, w);
  }

  lemma {:induction false} CallerAbove(m: Memory, g: Shadow, hb: int)
    requires Separated(m, g, hb)
    ensures m.calls.sp <= CallerSp(m, g)
  {
    hide HeapOk, Read32;
    StackBounds(m.mem, m.calls, g.calls);
  }

  // ---------------------------------------------------------------- whole runs

  /** A run of operations stops at the first that fails. */
  function RunOps(m: Memory, ops: seq<Op>): Outcome<Memory>
    requires OpsOk(ops)
    decreases |ops|
  {
    if ops == [] then Ok(m)
    else
      match Do(m, ops[0])
      case Ok(m1) => RunOps(m1, ops[1..])
      case Err(f) => Err(f)
  }

  ghost predicate AllowedRun(m: Memory, g: Shadow, ops: seq<Op>)
    requires OpsOk(ops)
    decreases |ops|
  {
    ops != [] ==>
      && Allowed(m, g, ops[0])
      && (Do(m, ops[0]).Ok? ==> AllowedRun(Do(m, ops[0]).value, Track(m, g, ops[0]), ops[1..]))
  }

  ghost function TrackRun(m: Memory, g: Shadow, ops: seq<Op>): Shadow
    requires OpsOk(ops) && AllowedRun(m, g, ops) && RunOps(m, ops).Ok?
    decreases |ops|
  {
    if ops == [] then g else TrackRun(Do(m, ops[0]).value, Track(m, g, ops[0]), ops[1..])
  }

  /** Over every run HB <= HP < SP holds, live blocks lie below HP and frames at or above SP, heap blocks and
      frames are what the operations made them. */
  lemma {:induction false} RunSeparated(m: Memory, g: Shadow, hb: int, ops: seq<Op>)
    requires OpsOk(ops)
    requires Separated(m, g, hb) && AllowedRun(m, g, ops) && RunOps(m, ops).Ok?
    ensures Separated(RunOps(m, ops).value, TrackRun(m, g, ops), hb)
    decreases |ops|
  {
    hide Separated, Allowed, Do, Track;
    if ops != [] {
      StepSeparated(m, g, hb, ops[0]);
      RunSeparated(Do(m, ops[0]).value, Track(m, g, ops[0]), hb, ops[1..]);
    }
  }

  // ---------------------------------------------------------------- nested calls

  /** Calls that the machine may make, one inside the other. */
  ghost predicate OnlyCalls(ops: seq<Op>) {
    forall i | 0 <= i < |ops| ::
      && ops[i].CallOp? && |ops[i].args| == ops[i].info.args && RawArgs(ops[i].args)
      && ops[i].info.locals >= 0 && IsWord(ops[i].ra)
  }

  /** Arguments, base and locals of all their frames. */
  function CellsOf(ops: seq<Op>): int
    requires forall i | 0 <= i < |ops| :: ops[i].CallOp?
    decreases |ops|
  {
    if ops == [] then 0 else ops[0].info.args + 1 + ops[0].info.locals + CellsOf(ops[1..])
  }

  lemma {:induction false} CellsPositive(ops: seq<Op>)
    requires OnlyCalls(ops)
    ensures CellsOf(ops) >= 0
    decreases |ops|
  {
    if ops != [] {
      CellsPositive(ops[1..]);
    }
  }

  /** From any state of a run, calls nested to any depth all succeed if and only if their frames together are
      smaller than the distance between HP and SP. */
  lemma {:induction false} NestedCallsExact(m: Memory, g: Shadow, hb: int, ops: seq<Op>)
    requires Separated(m, g, hb) && OnlyCalls(ops)
    ensures OpsOk(ops) && (RunOps(m, ops).Ok? <==> 8 * CellsOf(ops) < m.calls.sp - m.hp)
    decreases |ops|
  {
    hide HeapOk, StackOk, Enter, RawArgs, Read32, Get;
    HpInside(m, g, hb);
    if ops != [] {
      var op := ops[0];
      StackTop(m, g, hb);
      EnterRefusedExact(CallsOf(m), m.hp, op.info, op.args, op.ra);
      CellsPositive(ops[1..]);
      if Do(m, op).Ok? {
        CallSeparated(m, g, hb, op.info, op.args, op.ra);
        NestedCallsExact(Do(m, op).value, Track(m, g, op), hb, ops[1..]);
      }
    }
  }

  lemma {:induction false} StackTop(m: Memory, g: Shadow, hb: int)
    requires Separated(m, g, hb)
    ensures m.calls.sp <= MAX_ADDR
  {
    hide HeapOk, Read32;
    StackBounds(m.mem, m.calls, g.calls);
  }

  /** The registers as they were, or will be again, at call depth n. */
  function RegistersAt(m: Memory, g: Shadow, n: nat): CallRegisters
    requires n <= |g.calls| && |m.calls.frames| == |g.calls|
  {
    if n == |g.calls| then m.calls else CallRegisters(g.calls[n].fp, g.calls[n].sp, m.calls.frames[..n])
  }

  /** A run inside a call made at depth n: it never returns from that depth, and does not store to the
      slots of the frame it was called from. */
  ghost predicate Inside(m: Memory, g: Shadow, ops: seq<Op>, n: nat)
    requires OpsOk(ops) && AllowedRun(m, g, ops) && RunOps(m, ops).Ok?
    decreases |ops|
  {
    |g.calls| >= n &&
    (ops != [] ==>
      (ops[0].SlotStore? ==> |g.calls| > n) && Inside(Do(m, ops[0]).value, Track(m, g, ops[0]), ops[1..], n))
  }

  lemma {:induction false} DeeperIsLower(m: Mem, r: CallRegisters, calls: seq<Activation>, k: nat)
    requires StackOk(m, r, calls) && k < |calls|
    ensures r.sp <= calls[|calls| - 1].sp <= calls[k].sp
    decreases |calls|
  {
    hide Read32;
    var n := |calls| - 1;
    StackBounds(m, r, calls);
    if k < n {
      var c := calls[n];
      DeeperIsLower(m, CallRegisters(c.fp, c.sp, r.frames[..|r.frames| - 1]), calls[..n], k);
    }
  }

  lemma {:induction false} FramesMatch(m: Memory, g: Shadow, hb: int)
    requires Separated(m, g, hb)
    ensures |m.calls.frames| == |g.calls|
  {
    hide HeapOk, Read32;
    StackBounds(m.mem, m.calls, g.calls);
  }

  /** One operation inside leaves the outer registers and every byte of the outer frames as they were. */
  lemma {:induction false} StepInside(m: Memory, g: Shadow, hb: int, op: Op, n: nat)
    requires Separated(m, g, hb) && Allowed(m, g, op) && Do(m, op).Ok? && n <= |g.calls|
    requires (op.SlotStore? ==> |g.calls| > n) && |Track(m, g, op).calls| >= n
    ensures var m' := Do(m, op).value;
      && |m.calls.frames| == |g.calls| && |m'.calls.frames| == |Track(m, g, op).calls|
      && RegistersAt(m', Track(m, g, op), n) == RegistersAt(m, g, n)
      && SameFrom(m.mem, m'.mem, RegistersAt(m, g, n).sp)
  {
    hide HeapOk, Read32, Get, SameFrom, SameHeap;
    var m', g' := Do(m, op).value, Track(m, g, op);
    StepSeparated(m, g, hb, op);
    FramesMatch(m, g, hb);
    FramesMatch(m', g', hb);
    StackBounds(m.mem, m.calls, g.calls);
    if n < |g.calls| {
      DeeperIsLower(m.mem, m.calls, g.calls, n);
      SameFromUp(m.mem, m'.mem, CallerSp(m, g), RegistersAt(m, g, n).sp);
    } else {
      QuietAtBase(m, g, hb, op);
    }
    RegistersStay(m, g, hb, op, n);
  }

  lemma {:induction false} SameFromUp(m: Mem, m': Mem, lo: int, lo': int)
    requires SameFrom(m, m', lo) && lo <= lo'
    ensures SameFrom(m, m', lo')
  {
  }

  /** Apart from slot stores, operations change nothing at or above SP. */
  lemma {:induction false} QuietAtBase(m: Memory, g: Shadow, hb: int, op: Op)
    requires Separated(m, g, hb) && Allowed(m, g, op) && Do(m, op).Ok? && !op.SlotStore?
    ensures SameFrom(m.mem, Do(m, op).value.mem, m.calls.sp)
  {
    hide HeapOk, Read32, Get, SameHeap, Separated;
    match op
    case AllocOp(size) => AllocSeparated(m, g, hb, size);
    case FreeOp(p) => FreeSeparated(m, g, hb, p);
    case CallOp(info, args, ra) => CallSeparated(m, g, hb, info, args, ra);
    case RetOp => RetSeparated(m, g, hb);
    case HeapStore(a, b) => HeapStoreSeparated(m, g, hb, a, b);
  }

  lemma {:induction false} RegistersStay(m: Memory, g: Shadow, hb: int, op: Op, n: nat)
    requires Separated(m, g, hb) && Allowed(m, g, op) && Do(m, op).Ok? && n <= |g.calls| && |Track(m, g, op).calls| >= n
    ensures var m', g' := Do(m, op).value, Track(m, g, op);
      && |m.calls.frames| == |g.calls| && |m'.calls.frames| == |g'.calls|
      && RegistersAt(m', g', n) == RegistersAt(m, g, n)
  {
    hide *;
    FramesMatch(m, g, hb);
    if op.CallOp? {
      CallStays(m, g, hb, op.info, op.args, op.ra, n);
    } else if op.RetOp? {
      RetStays(m, g, hb, n);
    } else {
      OthersStay(m, g, hb, op, n);
    }
  }

  lemma {:induction false} CallStays(m: Memory, g: Shadow, hb: int, info: FrameInfo, args: seq<int>, ra: int, n: nat)
    requires Separated(m, g, hb) && Allowed(m, g, CallOp(info, args, ra)) && Do(m, CallOp(info, args, ra)).Ok?
    requires n <= |g.calls| == |m.calls.frames|
    ensures var op := CallOp(info, args, ra);
      var m', g' := Do(m, op).value, Track(m, g, op);
      |m'.calls.frames| == |g'.calls| && n <= |g'.calls| && RegistersAt(m', g', n) == RegistersAt(m, g, n)
  {
    hide HeapOk, Read32, Read64, Get, SameHeap, SameFrom, SameOutside, Enter, StackOk, RawArgs;
    var m' := Do(m, CallOp(info, args, ra)).value;
    CallSeparated(m, g, hb, info, args, ra);
    assert m'.calls.frames[..n] == m.calls.frames[..n];
    assert n == |g.calls| ==> m.calls.frames[..n] == m.calls.frames;
  }

  lemma {:induction false} RetStays(m: Memory, g: Shadow, hb: int, n: nat)
    requires Separated(m, g, hb) && Do(m, RetOp).Ok? && |g.calls| == |m.calls.frames| && |Track(m, g, RetOp).calls| >= n
    ensures var m', g' := Do(m, RetOp).value, Track(m, g, RetOp);
      n <= |g.calls| && |m'.calls.frames| == |g'.calls| && RegistersAt(m', g', n) == RegistersAt(m, g, n)
  {
    hide HeapOk, Read32, Get, StackOk, Leave;
    RetSeparated(m, g, hb);
    RetReturns(m, g, hb);
    var m' := Do(m, RetOp).value;
    assert m'.calls.frames == m.calls.frames[..|g.calls| - 1];
    assert m.calls.frames[..|g.calls| - 1][..n] == m.calls.frames[..n];
  }

  lemma {:induction false} OthersStay(m: Memory, g: Shadow, hb: int, op: Op, n: nat)
    requires Allowed(m, g, op) && Do(m, op).Ok? && n <= |g.calls| == |m.calls.frames| && !op.CallOp? && !op.RetOp?
    ensures Do(m, op).value.calls == m.calls && Track(m, g, op).calls == g.calls
    ensures RegistersAt(Do(m, op).value, Track(m, g, op), n) == RegistersAt(m, g, n)
  {
    hide Allocate, Deallocate, SlotAddress, Write64, Read32;
  }

  /** A properly nested run comes back to exactly the caller it left: FP, SP and the frame list are restored,
      and no byte of the frames that were active has changed. */
  lemma {:induction false} NestedRunRestores(m: Memory, g: Shadow, hb: int, ops: seq<Op>, n: nat)
    requires OpsOk(ops)
    requires Separated(m, g, hb) && AllowedRun(m, g, ops) && RunOps(m, ops).Ok? && Inside(m, g, ops, n)
    ensures var m', g' := RunOps(m, ops).value, TrackRun(m, g, ops);
      && |m.calls.frames| == |g.calls| && |m'.calls.frames| == |g'.calls| >= n
      && RegistersAt(m', g', n) == RegistersAt(m, g, n)
      && SameFrom(m.mem, m'.mem, RegistersAt(m, g, n).sp)
    decreases |ops|
  {
    hide Separated, Allowed, Do, Track, RegistersAt, SameFrom;
    FramesMatch(m, g, hb);
    if ops == [] {
      SameFromRefl(m.mem, RegistersAt(m, g, n).sp);
    } else {
      var m1, g1 := Do(m, ops[0]).value, Track(m, g, ops[0]);
      StepSeparated(m, g, hb, ops[0]);
      InsideDepth(m1, g1, ops[1..], n);
      StepInside(m, g, hb, ops[0], n);
      NestedRunRestores(m1, g1, hb, ops[1..], n);
      SameFromTrans(m.mem, m1.mem, RunOps(m, ops).value.mem, RegistersAt(m, g, n).sp);
    }
  }

  lemma {:induction false} InsideDepth(m: Memory, g: Shadow, ops: seq<Op>, n: nat)
    requires OpsOk(ops) && AllowedRun(m, g, ops) && RunOps(m, ops).Ok? && Inside(m, g, ops, n)
    ensures |g.calls| >= n
  {
  }

  lemma {:induction false} SameFromRefl(m: Mem, lo: int)
    ensures SameFrom(m, m, lo)
  {
  }

  lemma {:induction false} SameFromTrans(m0: Mem, m1: Mem, m2: Mem, lo: int)
    requires SameFrom(m0, m1, lo) && SameFrom(m1, m2, lo)
    ensures SameFrom(m0, m2, lo)
  {
  }

  // ---------------------------------------------------------------- stack traces

  /** getStackTrace: the return addresses found along the chain of saved frame pointers. */
  function StackTrace(m: Mem, fp: int, n: nat): seq<int>
    decreases n
  {
    if n == 0 then [] else [Read32(m, fp + 4)] + StackTrace(m, Read32(m, fp), n - 1)
  }

  /** The chain in memory lists the calls in progress, innermost first. */
  lemma {:induction false} TraceListsCalls(m: Mem, r: CallRegisters, calls: seq<Activation>)
    requires StackOk(m, r, calls)
    ensures |r.frames| == |calls| && |StackTrace(m, r.fp, |calls|)| == |calls|
    ensures forall i | 0 <= i < |calls| :: StackTrace(m, r.fp, |calls|)[i] == calls[|calls| - 1 - i].ra
    decreases |calls|
  {
    hide Read32;
    if calls != [] {
      var c := calls[|calls| - 1];
      TraceListsCalls(m, CallRegisters(c.fp, c.sp, r.frames[..|r.frames| - 1]), calls[..|calls| - 1]);
    }
  }
}
