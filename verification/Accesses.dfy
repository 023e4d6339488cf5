/** The bytes an instruction reads and writes, and runs of the machine that never cross a page end. */
module Accesses {
  import opened Words
  import opened Isa
  import opened FlatMemory
  import opened Arithmetic
  import opened Frames
  import opened Machine
  import opened Pages
  import Heap

  // ---------------------------------------------------------------- fetching

  /** Bytes in front of the immediate or the label of an instruction. */
  function OperandOffset<L>(i: Instr<L>): nat {
    if i.Push? || i.PushLabel? || i.LoadL? then 2 else 1
  }

  /** Width of the immediate or the label, which is read at once. */
  function OperandWidth<L>(i: Instr<L>): nat {
    match i
    case Push(ty, _) => Width(ty)
    case PushLabel(_) => 4
    case LoadL(_, _) => 4
    case LoadG(_) => 4
    case StoreG(_) => 4
    case StoreL(_) => 4
    case AddrL(_) => 4
    case Call(_) => 4
    case Jmp(_) => 4
    case Jez(_) => 4
    case Jnz(_) => 4
    case _ => 0
  }

  function ByteReads(a: int, n: nat): seq<Access> {
    if n == 0 then [] else ByteReads(a, n - 1) + [ReadAt(a + n - 1, 1)]
  }

  /** Opcode, type and depth are read byte by byte, an immediate or a label as one number. */
  function FetchAccesses(at: int, i: Instr<int>): seq<Access> {
    if OperandWidth(i) == 0 then ByteReads(at, Size(i))
    else ByteReads(at, OperandOffset(i)) + [ReadAt(at + OperandOffset(i), OperandWidth(i))]
  }

  /** The method header a call reads. */
  function HeaderAccesses(a: int): seq<Access> {
    [ReadAt(a, 1), ReadAt(a + 1, 4)]
  }

  // ---------------------------------------------------------------- data

  function ZeroBytes(a: int, n: nat): seq<Access> {
    if n == 0 then [] else ZeroBytes(a, n - 1) + [WriteAt(a + n - 1, 0, 1)]
  }

  function ArgWrites(fp: int, args: seq<int>): seq<Access>
    decreases |args|
  {
    if args == [] then [] else [WriteAt(fp + 8 * |args|, args[0], 8)] + ArgWrites(fp, args[1..])
  }

  function LocalWrites(sp: int, n: nat): seq<Access> {
    if n == 0 then [] else LocalWrites(sp, n - 1) + [WriteAt(sp + 8 * (n - 1), 0, 8)]
  }

  /** A request that is not refused: the header, then the zeroed payload byte by byte. */
  function AllocWrites(h: Heap.HeapState, size: int, sp: int): seq<Access>
    requires IsWord(size)
  {
    if size == 0 || Heap.Allocate(h, size, sp) == Err(OutOfMemory) then []
    else
      var need := Heap.Need(size);
      var a := h.free[Heap.FirstFit(h.free, need)].addr;
      [WriteAt(a, need, 4)] + ZeroBytes(a + Heap.HEADER, size)
  }

  /** A new frame: arguments, locals, saved frame pointer, return address. */
  function CallWrites(c: CallState, info: FrameInfo, args: seq<int>, ra: int): seq<Access> {
    var fp, sp := c.sp - (8 * info.args + 8), c.sp - FrameSize(info);
    ArgWrites(fp, args) + (LocalWrites(sp, if info.locals < 0 then 0 else info.locals)
      + [WriteAt(fp, c.fp, 4), WriteAt(fp + 4, ra, 4)])
  }

  /** The slot is accessed when the frame has it. */
  function SlotAccess(s: State, off: int, f: int -> Access): seq<Access> {
    match SlotAddress(s.Calls(), off)
    case Ok(a) => if InCallStack(s, a) then [f(a)] else []
    case Err(_) => []
  }

  /** An operand through which memory may be accessed. */
  predicate IsPointer(s: State, v: Value) {
    IsAddress(v) && InPtr(s, Low(v))
  }

  function GlobalAccess(s: State, a: int, last: seq<Access>): seq<Access> {
    if InData(s, ToWord(a - 1)) && InData(s, a) then [ReadAt(a - 1, 1)] + last else []
  }

  function CallAccesses(code: Code, s: State, a: int): seq<Access> {
    if a !in code.headers || |s.stack| < code.headers[a].args then HeaderAccesses(a)
    else
      var info := FrameInfo(code.headers[a].args, code.headers[a].locals);
      var args := PopArgs(s, info.args);
      HeaderAccesses(a)
        + if Enter(s.Calls(), s.hp, info, args, s.pc).Ok? then CallWrites(s.Calls(), info, args, s.pc) else []
  }

  /** What an instruction reads and writes once it has been fetched and its operands have been checked. */
  function DataAccesses(code: Code, s: State, i: Instr<int>): seq<Access> {
    var n := |s.stack|;
    match i
    case Load(ty) => if n < 1 || !IsPointer(s, Top(s, 0)) then [] else [ReadAt(Low(Top(s, 0)), Width(ty))]
    case LoadB => if n < 1 || !IsPointer(s, Top(s, 0)) then [] else [ReadAt(Low(Top(s, 0)), 1)]
    case LoadG(a) =>
      var ty := GlobalTy(Get(s.mem, a - 1));
      GlobalAccess(s, a, if ty.Ok? then [ReadAt(a, Width(ty.value))] else [])
    case LoadL(_, off) => SlotAccess(s, off, a => ReadAt(a, 8))
    case Store =>
      if n < 2 || !IsPointer(s, Top(s, 1)) then []
      else [WriteAt(Low(Top(s, 1)), Top(s, 0).raw, Width(Top(s, 0).ty))]
    case StoreB => if n < 2 || !IsPointer(s, Top(s, 1)) then [] else [WriteAt(Low(Top(s, 1)), Top(s, 0).raw, 1)]
    case StoreG(a) =>
      GlobalAccess(s, a, if n < 1 || GlobalTy(Get(s.mem, a - 1)) != Ok(Top(s, 0).ty) then []
                         else [WriteAt(a, Top(s, 0).raw, Width(Top(s, 0).ty))])
    case StoreL(off) => if n < 1 then [] else var v := Top(s, 0).raw; SlotAccess(s, off, a => WriteAt(a, v, 8))
    case Alloc => if n < 1 then [] else AllocWrites(s.HeapView(), Low(Top(s, 0)), s.sp)
    case Free =>
      if n < 1 || !InHeap(s, ToWord(Low(Top(s, 0)) - Heap.HEADER)) then []
      else [ReadAt(Low(Top(s, 0)) - Heap.HEADER, 4)]
    case Call(a) => CallAccesses(code, s, a)
    case Ret => if s.frames == [] then [] else [ReadAt(s.fp, 4), ReadAt(s.fp + 4, 4)]
    case _ => []
  }

  // ---------------------------------------------------------------- calm runs

  /** An access that stays in one page, and does not write below the data region. */
  predicate Calm(dataStart: int, x: Access) {
    InOnePage(x.a, x.n) && (x.WriteAt? ==> dataStart <= x.a)
  }

  predicate InPages(xs: seq<Access>) {
    forall i | 0 <= i < |xs| :: InOnePage(xs[i].a, xs[i].n)
  }

  predicate AllCalm(dataStart: int, xs: seq<Access>) {
    forall i | 0 <= i < |xs| :: Calm(dataStart, xs[i])
  }

  /** The immediate or label of an instruction stands in one page. */
  predicate FetchInPage<L>(at: int, i: Instr<L>) {
    InOnePage(at + OperandOffset(i), OperandWidth(i))
  }

  /** Everything the next step reads and writes. */
  function StepAccesses(code: Code, s: State): seq<Access>
    requires s.pc in code.ops
  {
    var i := code.ops[s.pc];
    FetchAccesses(s.pc, i) + DataAccesses(code, s.(pc := s.pc + Size(i)), i)
  }

  /** The next step fetches an instruction, calls only methods that have a header, and its accesses are calm. */
  predicate StepCalm(code: Code, s: State) {
    s.status == Running ==>
      && s.pc in code.ops && AllCalm(s.dataStart, StepAccesses(code, s))
      && (code.ops[s.pc].Call? ==> code.ops[s.pc].target in code.headers)
  }

  ghost predicate RunCalm(code: Code, s: State, k: nat) {
    forall j: nat | j < k :: StepCalm(code, Run(code, s, j))
  }

  /** A fetch stays in its pages exactly when the operand does: single bytes always do. */
  lemma {:induction false} FetchCalm(dataStart: int, at: int, i: Instr<int>)
    ensures AllCalm(dataStart, FetchAccesses(at, i)) <==> FetchInPage(at, i)
  {
    var n, w := OperandOffset(i), OperandWidth(i);
    BytesCalm(dataStart, at, Size(i));
    BytesCalm(dataStart, at, n);
    if w > 0 {
      CalmConcat(dataStart, ByteReads(at, n), [ReadAt(at + n, w)]);
      assert AllCalm(dataStart, [ReadAt(at + n, w)]) <==> Calm(dataStart, [ReadAt(at + n, w)][0]);
    }
  }

  lemma {:induction false} BytesCalm(dataStart: int, a: int, n: nat)
    ensures AllCalm(dataStart, ByteReads(a, n))
    decreases n
  {
    if n > 0 {
      BytesCalm(dataStart, a, n - 1);
    }
  }

  lemma {:induction false} CalmConcat(dataStart: int, f: seq<Access>, g: seq<Access>)
    ensures AllCalm(dataStart, f + g) <==> AllCalm(dataStart, f) && AllCalm(dataStart, g)
  {
    hide Calm;
    assert forall i | 0 <= i < |f| :: (f + g)[i] == f[i];
    assert forall i | 0 <= i < |g| :: (f + g)[|f| + i] == g[i];
  }

  lemma {:induction false} StepIsCalm(code: Code, s: State)
    requires s.pc in code.ops
    ensures var i := code.ops[s.pc];
      AllCalm(s.dataStart, StepAccesses(code, s)) <==>
        FetchInPage(s.pc, i) && AllCalm(s.dataStart, DataAccesses(code, s.(pc := s.pc + Size(i)), i))
  {
    hide FetchAccesses, DataAccesses, AllCalm, FetchInPage;
    var i := code.ops[s.pc];
    FetchCalm(s.dataStart, s.pc, i);
    CalmConcat(s.dataStart, FetchAccesses(s.pc, i), DataAccesses(code, s.(pc := s.pc + Size(i)), i));
  }

  // ---------------------------------------------------------------- reachability

  /** t is reached from s in at least n steps, all of them calm. */
  ghost predicate Reaches(code: Code, s: State, n: nat, t: State) {
    exists k: nat :: k >= n && Run(code, s, k) == t && RunCalm(code, s, k)
  }

  lemma {:induction false} ReachesSelf(code: Code, s: State)
    ensures Reaches(code, s, 0, s)
  {
    assert Run(code, s, 0) == s && RunCalm(code, s, 0);
  }

  lemma {:induction false} ReachesStep(code: Code, s: State, n: nat, t: State)
    requires Reaches(code, s, n, t) && StepCalm(code, t)
    ensures Reaches(code, s, n + 1, Step(code, t))
  {
    hide Step, StepCalm;
    var k: nat :| k >= n && Run(code, s, k) == t && RunCalm(code, s, k);
    RunPlus(code, s, k, 1);
    assert Run(code, t, 1) == Run(code, Step(code, t), 0);
    assert Run(code, s, k + 1) == Step(code, t);
    assert RunCalm(code, s, k + 1);
  }

  lemma {:induction false} ReachesWeaken(code: Code, s: State, m: nat, n: nat, t: State)
    requires Reaches(code, s, m, t) && n <= m
    ensures Reaches(code, s, n, t)
  {
  }
}
