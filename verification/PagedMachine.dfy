/** The VM on its pages: instructions and method headers are fetched from memory, reads of several bytes wrap
    around at the end of their page, and stores that would leave it are undefined. */
module PagedMachine {
  import opened Words
  import opened Isa
  import opened FlatMemory
  import opened Arithmetic
  import opened Frames
  import opened Machine
  import opened Pages
  import opened Accesses
  import opened Fetching
  import Heap

  /** Nothing is fetched from a decoded program here. */
  const NO_CODE := Code(map[], map[])

  function PagedValue(m: Mem, a: int, ty: Ty): Value {
    Value(ty, PagedRead(m, a, Width(ty)))
  }

  function PagedLoad(s: State, ty: Ty): State {
    if |s.stack| < 1 || !IsPointer(s, Top(s, 0)) then s.Fail(Internal)
    else Push1(s, 1, PagedValue(s.mem, Low(Top(s, 0)), ty))
  }

  function PagedLoadG(s: State, a: int): State {
    if !InData(s, ToWord(a - 1)) || !InData(s, a) then s.Fail(Internal)
    else
      match GlobalTy(Get(s.mem, a - 1))
      case Ok(ty) => Push1(s, 0, PagedValue(s.mem, a, ty))
      case Err(f) => s.Fail(f)
  }

  function PagedLoadL(s: State, ty: Ty, off: int): State {
    match SlotAddress(s.Calls(), off)
    case Ok(a) => if !InCallStack(s, a) then s.Fail(Internal) else Push1(s, 0, Value(ty, PagedRead(s.mem, a, 8)))
    case Err(f) => s.Fail(f)
  }

  /** Instructions that store: in their pages the bytes are stored one after the other. */
  function PagedStore(s: State, i: Instr<int>): State {
    if InPages(DataAccesses(NO_CODE, s, i)) then Execute(NO_CODE, s, i) else s.Fail(Undefined)
  }

  /** The size of the block is read from its header. */
  function PagedFree(s: State): State {
    if |s.stack| < 1 || Top(s, 0).ty != PTR || !InHeap(s, ToWord(Low(Top(s, 0)) - Heap.HEADER)) then s.Fail(Internal)
    else
      var a := Low(Top(s, 0)) - Heap.HEADER;
      s.(stack := Drop(s, 1), free := Heap.Release(s.free, Heap.FreeBlock(PagedRead(s.mem, a, 4), a)))
  }

  function PagedEnter(c: CallState, hp: int, info: FrameInfo, args: seq<int>, ra: int): Outcome<CallState>
    requires |args| == info.args
  {
    match Enter(c, hp, info, args, ra)
    case Err(f) => Err(f)
    case Ok(c') => if InPages(CallWrites(c, info, args, ra)) then Ok(c') else Err(Undefined)
  }

  function PagedCall(s: State, a: int): State {
    match FetchHeader(s.mem, s.dataStart, a)
    case None => s.Fail(Unmodelled)
    case Some(h) =>
      if |s.stack| < h.args then s.Fail(Internal)
      else
        match PagedEnter(s.Calls(), s.hp, FrameInfo(h.args, h.locals), PopArgs(s, h.args), s.pc)
        case Ok(c) =>
          s.(pc := a + 5, stack := Drop(s, h.args), mem := c.mem, fp := c.fp, sp := c.sp, frames := c.frames)
        case Err(f) => s.Fail(f)
  }

  function PagedRet(s: State): State {
    if s.frames == [] then s.Fail(Internal)
    else
      var top := s.frames[|s.frames| - 1];
      s.(pc := PagedRead(s.mem, s.fp + 4, 4), fp := PagedRead(s.mem, s.fp, 4), sp := ToWord(s.sp + FrameSize(top)),
        frames := s.frames[..|s.frames| - 1])
  }

  function PagedExecute(s: State, i: Instr<int>): State {
    match i
    case Load(ty) => PagedLoad(s, ty)
    case LoadG(a) => PagedLoadG(s, a)
    case LoadL(ty, off) => PagedLoadL(s, ty, off)
    case Store => PagedStore(s, i)
    case StoreG(_) => PagedStore(s, i)
    case StoreL(_) => PagedStore(s, i)
    case Alloc => PagedStore(s, i)
    case Free => PagedFree(s)
    case Call(a) => PagedCall(s, a)
    case Ret => PagedRet(s)
    case _ => Execute(NO_CODE, s, i)
  }

  /** execute: bytes that are no instruction are not modelled. */
  function PagedStep(s: State): State {
    if s.status != Running then s
    else
      match FetchInstruction(s.mem, s.dataStart, s.pc)
      case None => s.Fail(Unmodelled)
      case Some(i) => PagedExecute(s.(pc := s.pc + Size(i)), i)
  }

  function PagedSteps(s: State, k: nat): State
    decreases k
  {
    if k == 0 then s else PagedSteps(PagedStep(s), k - 1)
  }
}
