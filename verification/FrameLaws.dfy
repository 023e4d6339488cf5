/** What a call puts into memory and what a return takes back out. */
module FrameLaws {
  import opened Words
  import opened Isa
  import opened FlatMemory
  import opened Frames

  /** Arguments as the VM holds them: raw 64-bit values, last source argument first. */
  ghost predicate RawArgs(args: seq<int>) {
    forall i | 0 <= i < |args| :: 0 <= args[i] < W64
  }

  /** Bytes outside [lo, hi) are the same in both memories. */
  ghost predicate SameOutside(m: Mem, m': Mem, lo: int, hi: int) {
    forall a | a < lo || hi <= a :: Get(m', a) == Get(m, a)
  }

  lemma {:induction false} StoreArgsSlots(m: Mem, fp: int, args: seq<int>)
    requires RawArgs(args)
    ensures forall j | 1 <= j <= |args| :: Read64(StoreArgs(m, fp, args), fp + 8 * j) == args[|args| - j]
    ensures SameOutside(m, StoreArgs(m, fp, args), fp + 8, fp + 8 + 8 * |args|)
    decreases |args|
  {
    hide Get, Read64, Read32, Write32, Write64, SameOutside, CellUpdate;
    if args == [] {
      NothingChanged(m, fp + 8, fp + 8);
    } else {
      var n := |args|;
      var m1 := Write64(m, fp + 8 * n, args[0]);
      OneCell(m, fp + 8 * n, args[0]);
      StoreArgsSlots(m1, fp, args[1..]);
      var m2 := StoreArgs(m1, fp, args[1..]);
      SameCell(m1, m2, fp + 8, fp + 8 * n, fp + 8 * n);
      BothChanged(m, m1, m2, fp + 8, fp + 8 + 8 * n, fp + 8 * n, fp + 8 * n + 8, fp + 8, fp + 8 * n);
      forall j | 1 <= j <= n
        ensures Read64(m2, fp + 8 * j) == args[n - j]
      {
        if j < n {
          assert args[1..][n - 1 - j] == args[n - j];
        }
      }
    }
  }

  lemma {:induction false} NothingChanged(m: Mem, lo: int, hi: int)
    ensures SameOutside(m, m, lo, hi)
  {
  }

  lemma {:induction false} OneCell(m: Mem, p: int, w: int)
    requires 0 <= w < W64
    ensures Read64(Write64(m, p, w), p) == w && SameOutside(m, Write64(m, p, w), p, p + 8)
  {
    CellStore64(m, p, w);
  }

  lemma {:induction false} BothChanged(m0: Mem, m1: Mem, m2: Mem, lo: int, hi: int, lo1: int, hi1: int, lo2: int,
          hi2: int)
    requires SameOutside(m0, m1, lo1, hi1) && SameOutside(m1, m2, lo2, hi2)
    requires lo <= lo1 && lo <= lo2 && hi1 <= hi && hi2 <= hi
    ensures SameOutside(m0, m2, lo, hi)
  {
  }

  /** A cell outside a changed range reads the same. */
  lemma {:induction false} SameCell(m: Mem, m': Mem, lo: int, hi: int, p: int)
    requires SameOutside(m, m', lo, hi) && (p + 8 <= lo || hi <= p)
    ensures Read64(m', p) == Read64(m, p) && Read32(m', p) == Read32(m, p) && Read32(m', p + 4) == Read32(m, p + 4)
  {
  }

  lemma {:induction false} ZeroLocalsSlots(m: Mem, sp: int, n: nat)
    ensures forall k | 0 <= k < n :: Read64(ZeroLocals(m, sp, n), sp + 8 * k) == 0
    ensures SameOutside(m, ZeroLocals(m, sp, n), sp, sp + 8 * n)
  {
    hide Get, Read64, Read32, Write32, Write64, SameOutside, CellUpdate;
    if n == 0 {
      NothingChanged(m, sp, sp);
    } else {
      ZeroLocalsSlots(m, sp, n - 1);
      var m1 := ZeroLocals(m, sp, n - 1);
      var m2 := Write64(m1, sp + 8 * (n - 1), 0);
      OneCell(m1, sp + 8 * (n - 1), 0);
      forall k | 0 <= k < n - 1
        ensures Read64(m2, sp + 8 * k) == 0
      {
        SameCell(m1, m2, sp + 8 * (n - 1), sp + 8 * n, sp + 8 * k);
      }
      BothChanged(m, m1, m2, sp, sp + 8 * n, sp, sp + 8 * (n - 1), sp + 8 * (n - 1), sp + 8 * n);
    }
  }

  /** The new frame, whenever it fits: its slots hold the arguments in source order (slot j is argument j)
      and zeros, its base cell holds the caller's frame pointer and the return address, and no byte
      outside the frame changed. */
  ghost predicate FrameBuilt(c: CallState, info: FrameInfo, args: seq<int>, ra: int, d: CallState) {
    && d.frames == c.frames + [info]
    && d.fp == c.sp - 8 - 8 * info.args && d.sp == d.fp - 8 * info.locals
    && 0 <= d.sp
    && |args| == info.args
    && (forall j | 1 <= j <= |args| :: Read64(d.mem, d.fp + 8 * j) == args[|args| - j])
    && (forall j | 1 <= j <= info.locals :: Read64(d.mem, d.fp - 8 * j) == 0)
    && Read32(d.mem, d.fp) == c.fp && Read32(d.mem, d.fp + 4) == ra
    && SameOutside(c.mem, d.mem, d.sp, c.sp)
  }

  lemma {:induction false} EnterBuilds(c: CallState, hp: int, info: FrameInfo, args: seq<int>, ra: int)
    requires |args| == info.args && RawArgs(args) && IsWord(c.fp) && IsWord(ra) && IsWord(c.sp) && hp >= 0
    requires Enter(c, hp, info, args, ra).Ok?
    ensures FrameBuilt(c, info, args, ra, Enter(c, hp, info, args, ra).value)
    ensures Enter(c, hp, info, args, ra).value.sp > hp
  {
    hide Get, Read64, Read32, Write32, Write64, StoreArgs, ZeroLocals, SameOutside;
    var fp := c.sp - (8 * info.args + 8);
    var sp := c.sp - FrameSize(info);
    var m1 := StoreArgs(c.mem, fp, args);
    var m2 := ZeroLocals(m1, sp, info.locals);
    StoreArgsSlots(c.mem, fp, args);
    ZeroLocalsSlots(m1, sp, info.locals);
    var m3 := Write32(m2, fp, c.fp);
    var m4 := Write32(m3, fp + 4, ra);
    BaseCell(m2, fp, c.fp, ra);
    BothChanged(c.mem, m1, m2, sp, c.sp, fp + 8, c.sp, sp, fp);
    BothChanged(c.mem, m2, m4, sp, c.sp, sp, c.sp, fp, fp + 8);
    forall j | 1 <= j <= |args|
      ensures Read64(m4, fp + 8 * j) == args[|args| - j]
    {
      SameCell(m2, m4, fp, fp + 8, fp + 8 * j);
      SameCell(m1, m2, sp, fp, fp + 8 * j);
    }
    forall j | 1 <= j <= info.locals
      ensures Read64(m4, fp - 8 * j) == 0
    {
      SameCell(m2, m4, fp, fp + 8, fp - 8 * j);
      assert fp - 8 * j == sp + 8 * (info.locals - j);
    }
  }

  /** A call is refused exactly when its frame, a cell for each argument and local and one for the base, would not
      lie wholly above HP; what calls are in progress and what the arguments hold makes no difference. */
  lemma {:induction false} EnterRefusedExact(c: CallState, hp: int, info: FrameInfo, args: seq<int>, ra: int)
    requires |args| == info.args && 0 <= hp < c.sp <= MAX_ADDR && info.locals >= 0
    ensures Enter(c, hp, info, args, ra).Ok? <==> 8 * (info.args + 1 + info.locals) < c.sp - hp
    ensures Enter(c, hp, info, args, ra) == Outcome.Err(StackOverflow) <==>
      c.sp - 8 * (info.args + 1 + info.locals) <= hp && 8 * (info.args + 1 + info.locals) < W32
  {
    hide StoreArgs, ZeroLocals, Write32;
    var size := FrameSize(info);
    assert size == 8 * (info.args + 1 + info.locals);
    if size <= c.sp {
      assert ToWord(c.sp - size) == c.sp - size;
    }
  }

  lemma {:induction false} BaseCell(m: Mem, fp: int, saved: int, ra: int)
    requires IsWord(saved) && IsWord(ra)
    ensures var m' := Write32(Write32(m, fp, saved), fp + 4, ra);
            Read32(m', fp) == saved && Read32(m', fp + 4) == ra && SameOutside(m, m', fp, fp + 8)
  {
    hide Get, Read32, Write32;
    var m1 := Write32(m, fp, saved);
    Read32Write32(m, fp, saved);
    Read32Write32(m1, fp + 4, ra);
    Read32Other(m1, fp + 4, ra, fp);
    forall a | a < fp || fp + 8 <= a
      ensures Get(Write32(m1, fp + 4, ra), a) == Get(m, a)
    {
      Write32Elsewhere(m, fp, saved, a);
      Write32Elsewhere(m1, fp + 4, ra, a);
    }
  }

  /** What the callee must leave alone for the return: the registers and the base cell of its frame. */
  ghost predicate ReadyToReturn(d: CallState, e: CallState) {
    && e.fp == d.fp && e.sp == d.sp && e.frames == d.frames
    && Read32(e.mem, d.fp) == Read32(d.mem, d.fp) && Read32(e.mem, d.fp + 4) == Read32(d.mem, d.fp + 4)
  }

  /** ret undoes call: the caller's FP and SP and the frame list are back, and control continues at the
      return address. */
  lemma {:induction false} LeaveUndoesEnter(c: CallState, info: FrameInfo, args: seq<int>, ra: int, d: CallState,
          e: CallState)
    requires FrameBuilt(c, info, args, ra, d) && ReadyToReturn(d, e) && IsWord(c.sp)
    ensures Leave(e) == Outcome.Ok((CallState(e.mem, c.fp, c.sp, c.frames), ra))
  {
    hide Get, Read64, Read32;
    assert e.frames[|e.frames| - 1] == info && e.frames[..|e.frames| - 1] == c.frames;
  }
}
