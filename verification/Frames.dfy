/** Call frames in memory, as CallStackManager lays them out:
    arguments above the saved frame pointer and return address, locals below. */
module Frames {
  import opened Words
  import opened Isa
  import opened FlatMemory

  datatype FrameInfo = FrameInfo(args: Byte, locals: int)

  datatype CallState = CallState(mem: Mem, fp: int, sp: int, frames: seq<FrameInfo>)

  function FrameSize(info: FrameInfo): int {
    8 * info.args + 8 + 8 * info.locals
  }

  /** Arguments in pop order: the last source argument comes first and lands in the highest slot. */
  function StoreArgs(m: Mem, fp: int, args: seq<int>): Mem
    decreases |args|
  {
    if args == [] then m
    else StoreArgs(Write64(m, fp + 8 * |args|, args[0]), fp, args[1..])
  }

  function ZeroLocals(m: Mem, sp: int, n: nat): Mem {
    if n == 0 then m else Write64(ZeroLocals(m, sp, n - 1), sp + 8 * (n - 1), 0)
  }

  /** CallStackManager::push. Local counts that overflow the 32-bit frame size are not modelled. */
  function Enter(c: CallState, hp: int, info: FrameInfo, args: seq<int>, ra: int): Outcome<CallState>
    requires |args| == info.args
  {
    var size := FrameSize(info);
    if info.locals < 0 || size >= W32 then Err(Unmodelled)
    else if ToWord(c.sp - size) <= hp || size > c.sp then Err(StackOverflow)
    else
      var fp := c.sp - (8 * info.args + 8);
      var sp := c.sp - size;
      var m := ZeroLocals(StoreArgs(c.mem, fp, args), sp, info.locals);
      Ok(CallState(Write32(Write32(m, fp, c.fp), fp + 4, ra), fp, sp, c.frames + [info]))
  }

  /** CallStackManager::pop: the caller's state and the return address. */
  function Leave(c: CallState): Outcome<(CallState, int)> {
    if c.frames == [] then Err(Internal)
    else
      var top := c.frames[|c.frames| - 1];
      Ok((CallState(c.mem, Read32(c.mem, c.fp), ToWord(c.sp + FrameSize(top)), c.frames[..|c.frames| - 1]),
          Read32(c.mem, c.fp + 4)))
  }

  /** calculateAndValidateFrameAddress: slots 1..args are arguments, -1..-locals are locals.
      Slot 0 passes the test too and is the saved frame pointer. */
  function SlotAddress(c: CallState, slot: int): Outcome<int> {
    if c.frames == [] then Err(Internal)
    else
      var top := c.frames[|c.frames| - 1];
      if (slot > 0 && slot > top.args) || -slot > top.locals then Err(Internal)
      else Ok(ToWord(c.fp + 8 * slot))
  }
}
