/** The call stack manager as it is written: frames stored and read back in loops over memory,
    the registers FP, SP and PC changed in place. */
module CallStackManager {
  import opened Words
  import opened Isa
  import opened FlatMemory
  import opened Frames
  import opened MemoryRuns

  /** Memory after the first i arguments have been stored. */
  ghost function StoreFirst(m: Mem, fp: int, args: seq<int>, i: nat): Mem
    requires i <= |args|
  {
    if i == 0 then m else Write64(StoreFirst(m, fp, args, i - 1), fp + 8 * (|args| - (i - 1)), args[i - 1])
  }

  lemma {:induction false} StoreFirstShift(m: Mem, fp: int, args: seq<int>, i: nat)
    requires 1 <= i <= |args|
    ensures StoreFirst(m, fp, args, i) == StoreFirst(Write64(m, fp + 8 * |args|, args[0]), fp, args[1..], i - 1)
    decreases i
  {
    hide Write64;
    if i > 1 {
      StoreFirstShift(m, fp, args, i - 1);
      assert args[1..][i - 2] == args[i - 1];
    }
  }

  lemma {:induction false} StoreFirstAll(m: Mem, fp: int, args: seq<int>)
    ensures StoreFirst(m, fp, args, |args|) == StoreArgs(m, fp, args)
    decreases |args|
  {
    hide Write64;
    if args != [] {
      StoreFirstShift(m, fp, args, |args|);
      StoreFirstAll(Write64(m, fp + 8 * |args|, args[0]), fp, args[1..]);
    }
  }

  lemma {:induction false} TraceSnoc(m: Mem, fp: int, n: nat)
    ensures StackTrace(m, fp, n + 1) == StackTrace(m, fp, n) + [Read32(m, Hop(m, fp, n) + 4)]
    decreases n
  {
    hide Read32;
    if n > 0 {
      TraceSnoc(m, Read32(m, fp), n - 1);
    }
  }

  /** The frame pointer n saved frame pointers up the chain. */
  ghost function Hop(m: Mem, fp: int, n: nat): int
    decreases n
  {
    if n == 0 then fp else Hop(m, Read32(m, fp), n - 1)
  }

  lemma {:induction false} HopOnce(m: Mem, fp: int, n: nat)
    ensures Hop(m, fp, n + 1) == Read32(m, Hop(m, fp, n))
    decreases n
  {
    hide Read32;
    if n > 0 {
      HopOnce(m, Read32(m, fp), n - 1);
    }
  }

  class CallStackManager {
    var mem: Mem
    var FP: int
    var SP: int
    var PC: int
    var frameInfoStack: seq<FrameInfo>

    ghost function State(): CallState
      reads this
    {
      CallState(mem, FP, SP, frameInfoStack)
    }

    constructor (mem: Mem)
      ensures State() == CallState(mem, MAX_ADDR, MAX_ADDR, []) && PC == 0
    {
      this.mem, FP, SP, PC, frameInfoStack := mem, MAX_ADDR, MAX_ADDR, 0, [];
    }

    method Push(returnAddress: int, numberOfArguments: Byte, numberLocals: nat, arguments: seq<int>, HP: int)
      returns (r: Outcome<()>)
      requires |arguments| == numberOfArguments && 0 <= FP < W32 && 0 <= SP < W32
      requires 8 * numberOfArguments + 8 + 8 * numberLocals < W32
      modifies this
      ensures match Enter(old(State()), HP, FrameInfo(numberOfArguments, numberLocals), arguments, returnAddress)
              case Ok(c) => r == Outcome.Ok(()) && State() == c && PC == old(PC)
              case Err(f) => r == Outcome.Err(f) && State() == old(State())
    {
      hide Write32, Write64;
      var sizeOfArguments := numberOfArguments * 8;
      var sizeOfLocals := numberLocals * 8;
      var sizeOfFrame := sizeOfArguments + 8 + sizeOfLocals;
      if ToWord(SP - sizeOfFrame) <= HP || sizeOfFrame > SP {
        return Outcome.Err(StackOverflow);
      }
      var oldFP := FP;
      FP := SP - (sizeOfArguments + 8);
      SP := SP - sizeOfFrame;
      ghost var m0 := mem;
      var i := 0;
      while i < numberOfArguments
        invariant 0 <= i <= numberOfArguments
        invariant mem == StoreFirst(m0, FP, arguments, i)
        modifies this`mem
      {
        mem := Write64(mem, FP + (sizeOfArguments - i * 8), arguments[i]);
        i := i + 1;
      }
      StoreFirstAll(m0, FP, arguments);
      ghost var m1 := mem;
      i := 0;
      while i < numberLocals
        invariant 0 <= i <= numberLocals
        invariant mem == ZeroLocals(m1, SP, i)
        modifies this`mem
      {
        mem := Write64(mem, SP + i * 8, 0);
        i := i + 1;
      }
      mem := Write32(mem, FP, oldFP);
      mem := Write32(mem, FP + 4, returnAddress);
      frameInfoStack := frameInfoStack + [FrameInfo(numberOfArguments, numberLocals)];
      return Outcome.Ok(());
    }

    method Pop() returns (r: Outcome<()>)
      modifies this`FP, this`SP, this`PC, this`frameInfoStack
      ensures match Leave(old(State()))
              case Ok((c, ra)) => r == Outcome.Ok(()) && State() == c && PC == ra
              case Err(f) => r == Outcome.Err(f) && State() == old(State()) && PC == old(PC)
    {
      if frameInfoStack == [] {
        return Outcome.Err(Internal);
      }
      PC := Read32(mem, FP + 4);
      FP := Read32(mem, FP);
      var frameInfo := frameInfoStack[|frameInfoStack| - 1];
      SP := ToWord(SP + (frameInfo.args * 8 + 8 + frameInfo.locals * 8));
      frameInfoStack := frameInfoStack[..|frameInfoStack| - 1];
      return Outcome.Ok(());
    }

    /** The return addresses of the calls in progress, innermost first. */
    method GetStackTrace() returns (stackTrace: seq<int>)
      ensures stackTrace == StackTrace(mem, FP, |frameInfoStack|)
      ensures forall calls: seq<Activation> | StackOk(mem, CallRegisters(FP, SP, frameInfoStack), calls) ::
        |stackTrace| == |calls| && forall i | 0 <= i < |calls| :: stackTrace[i] == calls[|calls| - 1 - i].ra
    {
      hide Read32;
      stackTrace := [];
      var currentFrameFP := FP;
      var stackIdx := 0;
      while stackIdx < |frameInfoStack|
        invariant 0 <= stackIdx <= |frameInfoStack|
        invariant stackTrace == StackTrace(mem, FP, stackIdx) && currentFrameFP == Hop(mem, FP, stackIdx)
      {
        TraceSnoc(mem, FP, stackIdx);
        HopOnce(mem, FP, stackIdx);
        stackTrace := stackTrace + [Read32(mem, currentFrameFP + 4)];
        currentFrameFP := Read32(mem, currentFrameFP);
        stackIdx := stackIdx + 1;
      }
      forall calls: seq<Activation> | StackOk(mem, CallRegisters(FP, SP, frameInfoStack), calls)
        ensures |stackTrace| == |calls| && forall i | 0 <= i < |calls| :: stackTrace[i] == calls[|calls| - 1 - i].ra
      {
        TraceListsCalls(mem, CallRegisters(FP, SP, frameInfoStack), calls);
      }
    }
  }
}
