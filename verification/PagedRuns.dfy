/** The machine on pages and on the flat map: the same, step by step, while no access crosses a page end. */
module PagedRuns {
  import opened Words
  import opened Isa
  import opened FlatMemory
  import opened Arithmetic
  import opened Frames
  import opened Machine
  import opened Pages
  import opened Accesses
  import opened Encoding
  import opened Fetching
  import opened Loading
  import opened PagedMachine
  import Heap

  // ---------------------------------------------------------------- they are what the machine does

  lemma {:induction false} RunConcat(m: Mem, f: seq<Access>, g: seq<Access>)
    ensures FlatRun(m, f + g) == (FlatRun(FlatRun(m, f).0, g).0, FlatRun(m, f).1 + FlatRun(FlatRun(m, f).0, g).1)
    decreases |f|
  {
    hide StoreBytes, FlatRead;
    if f == [] {
      assert f + g == g && [] + FlatRun(m, g).1 == FlatRun(m, g).1;
    } else {
      assert (f + g)[1..] == f[1..] + g && (f + g)[0] == f[0];
      match f[0]
      case ReadAt(a, n) =>
        RunConcat(m, f[1..], g);
        var r1, r2 := FlatRun(m, f[1..]).1, FlatRun(FlatRun(m, f[1..]).0, g).1;
        assert [FlatRead(m, a, n)] + (r1 + r2) == [FlatRead(m, a, n)] + r1 + r2;
      case WriteAt(a, v, n) => RunConcat(StoreBytes(m, a, v, n), f[1..], g);
    }
  }

  lemma {:induction false} OneWrite(m: Mem, a: int, v: int, n: nat)
    ensures FlatRun(m, [WriteAt(a, v, n)]).0 == StoreBytes(m, a, v, n)
  {
    hide StoreBytes;
    assert [WriteAt(a, v, n)][1..] == [];
  }

  lemma {:induction false} OneRead(m: Mem, a: int, n: nat)
    ensures FlatRun(m, [ReadAt(a, n)]) == (m, [FlatRead(m, a, n)])
  {
    hide FlatRead;
    assert [ReadAt(a, n)][1..] == [] && [FlatRead(m, a, n)] + [] == [FlatRead(m, a, n)];
  }

  lemma {:induction false} OneByte(m: Mem, a: int, v: int)
    ensures StoreBytes(m, a, v, 1) == Write8(m, a, v % 256)
  {
    assert StoreBytes(m, a, v, 1) == m[a := v % 256];
  }

  lemma {:induction false} ZeroesWritten(m: Mem, a: int, n: nat)
    ensures FlatRun(m, ZeroBytes(a, n)).0 == Heap.ZeroFrom(m, a, n)
    decreases n
  {
    hide StoreBytes;
    if n > 0 {
      ZeroesWritten(m, a, n - 1);
      RunConcat(m, ZeroBytes(a, n - 1), [WriteAt(a + n - 1, 0, 1)]);
      OneWrite(Heap.ZeroFrom(m, a, n - 1), a + n - 1, 0, 1);
      OneByte(Heap.ZeroFrom(m, a, n - 1), a + n - 1, 0);
    }
  }

  lemma {:induction false} ArgsWritten(m: Mem, fp: int, args: seq<int>)
    ensures FlatRun(m, ArgWrites(fp, args)).0 == StoreArgs(m, fp, args)
    decreases |args|
  {
    hide StoreBytes, Write64;
    if args != [] {
      StoreEightBytes(m, fp + 8 * |args|, args[0]);
      ArgsWritten(Write64(m, fp + 8 * |args|, args[0]), fp, args[1..]);
      assert ArgWrites(fp, args)[1..] == ArgWrites(fp, args[1..]);
    }
  }

  lemma {:induction false} LocalsWritten(m: Mem, sp: int, n: nat)
    ensures FlatRun(m, LocalWrites(sp, n)).0 == ZeroLocals(m, sp, n)
    decreases n
  {
    hide StoreBytes, Write64;
    if n > 0 {
      LocalsWritten(m, sp, n - 1);
      RunConcat(m, LocalWrites(sp, n - 1), [WriteAt(sp + 8 * (n - 1), 0, 8)]);
      OneWrite(ZeroLocals(m, sp, n - 1), sp + 8 * (n - 1), 0, 8);
      StoreEightBytes(ZeroLocals(m, sp, n - 1), sp + 8 * (n - 1), 0);
    }
  }

  lemma {:induction false} FrameWritten(c: CallState, hp: int, info: FrameInfo, args: seq<int>, ra: int)
    requires |args| == info.args && Enter(c, hp, info, args, ra).Ok?
    ensures FlatRun(c.mem, CallWrites(c, info, args, ra)).0 == Enter(c, hp, info, args, ra).value.mem
  {
    hide StoreBytes, Write32, StoreArgs, ZeroLocals, LocalWrites, ArgWrites, FlatRun;
    var fp, sp := c.sp - (8 * info.args + 8), c.sp - FrameSize(info);
    var m1 := StoreArgs(c.mem, fp, args);
    var m2 := ZeroLocals(m1, sp, info.locals);
    var last := [WriteAt(fp, c.fp, 4), WriteAt(fp + 4, ra, 4)];
    ArgsWritten(c.mem, fp, args);
    LocalsWritten(m1, sp, info.locals);
    TwoWrites(m2, fp, c.fp, ra);
    RunConcat(m1, LocalWrites(sp, info.locals), last);
    RunConcat(c.mem, ArgWrites(fp, args), LocalWrites(sp, info.locals) + last);
  }

  lemma {:induction false} TwoWrites(m: Mem, a: int, v: int, w: int)
    ensures FlatRun(m, [WriteAt(a, v, 4), WriteAt(a + 4, w, 4)]).0 == Write32(Write32(m, a, v), a + 4, w)
  {
    hide StoreBytes, Write32;
    var f, g := [WriteAt(a, v, 4)], [WriteAt(a + 4, w, 4)];
    OneWrite(m, a, v, 4);
    StoreFourBytes(m, a, v);
    OneWrite(Write32(m, a, v), a + 4, w, 4);
    StoreFourBytes(Write32(m, a, v), a + 4, w);
    RunConcat(m, f, g);
    assert f + g == [WriteAt(a, v, 4), WriteAt(a + 4, w, 4)];
  }

  lemma {:induction false} BlockWritten(h: Heap.HeapState, size: int, sp: int)
    requires IsWord(size) && Heap.Allocate(h, size, sp).Ok?
    ensures FlatRun(h.mem, AllocWrites(h, size, sp)).0 == Heap.Allocate(h, size, sp).value.0.mem
  {
    hide StoreBytes, Write32, Heap.ZeroFrom, Heap.FirstFit, ZeroBytes, FlatRun;
    var need := Heap.Need(size);
    var a := h.free[Heap.FirstFit(h.free, need)].addr;
    OneWrite(h.mem, a, need, 4);
    StoreFourBytes(h.mem, a, need);
    ZeroesWritten(Write32(h.mem, a, need), a + Heap.HEADER, size);
    RunConcat(h.mem, [WriteAt(a, need, 4)], ZeroBytes(a + Heap.HEADER, size));
  }

  lemma {:induction false} TypedWritten(m: Mem, a: int, v: Value)
    ensures FlatRun(m, [WriteAt(a, v.raw, Width(v.ty))]).0 == WriteTyped(m, a, v)
  {
    hide StoreBytes, Write32, Write64;
    OneWrite(m, a, v.raw, Width(v.ty));
    if IsWide(v.ty) {
      StoreEightBytes(m, a, v.raw);
      LowHalf(m, a, v.raw);
    } else {
      StoreFourBytes(m, a, v.raw);
      LowWord(m, a, v.raw);
    }
  }

  lemma {:induction false} LowWord(m: Mem, a: int, v: int)
    ensures Write32(m, a, v % W32) == Write32(m, a, v)
  {
    LowBytes(v);
  }

  lemma {:induction false} LowHalf(m: Mem, a: int, v: int)
    ensures Write64(m, a, v % W64) == Write64(m, a, v)
  {
    hide Write32;
    assert W64 == W32 * W32;
    assert v % W64 % W32 == v % W32 && v % W64 / W32 % W32 == v / W32 % W32;
  }

  lemma {:induction false} SlotWritten(m: Mem, a: int, raw: nat)
    ensures FlatRun(m, [WriteAt(a, raw, 8)]).0 == Write64(m, a, raw % W64)
  {
    hide StoreBytes, Write64;
    OneWrite(m, a, raw, 8);
    StoreEightBytes(m, a, raw);
    LowHalf(m, a, raw);
  }

  /** An instruction that does not fail leaves in memory what its accesses leave. */
  lemma {:induction false} AccessesExact(code: Code, s: State, i: Instr<int>)
    requires s.status == Running && Execute(code, s, i).status == Running
    ensures FlatRun(s.mem, DataAccesses(code, s, i)).0 == Execute(code, s, i).mem
  {
    hide StoreBytes, FlatRead, FlatRun, WriteTyped, Write64, Write8, Read64, Read32, Get, Heap.Allocate,
      Heap.Deallocate, Enter, Leave, SlotAddress, AllocWrites, CallWrites, PopArgs, Apply, BitNot, ConvertTo;
    NoAccess(s.mem);
    match i {
      case Store => TypedWritten(s.mem, Low(Top(s, 1)), Top(s, 0));
      case StoreB =>
        OneWrite(s.mem, Low(Top(s, 1)), Top(s, 0).raw, 1);
        OneByte(s.mem, Low(Top(s, 1)), Top(s, 0).raw);
      case StoreG(a) =>
        OneRead(s.mem, a - 1, 1);
        TypedWritten(s.mem, a, Top(s, 0));
        RunConcat(s.mem, [ReadAt(a - 1, 1)], [WriteAt(a, Top(s, 0).raw, Width(Top(s, 0).ty))]);
      case StoreL(off) => SlotWritten(s.mem, SlotAddress(s.Calls(), off).value, Top(s, 0).raw);
      case Alloc => BlockWritten(s.HeapView(), Low(Top(s, 0)), s.sp);
      case Call(a) => CallExact(code, s, a);
      case _ => ReadsOnly(code, s, i);
    }
  }

  lemma {:induction false} CallExact(code: Code, s: State, a: int)
    requires s.status == Running && ExecCall(code, s, a).status == Running
    ensures FlatRun(s.mem, CallAccesses(code, s, a)).0 == ExecCall(code, s, a).mem
  {
    hide FlatRun, CallWrites, Enter, PopArgs;
    var info := FrameInfo(code.headers[a].args, code.headers[a].locals);
    var args := PopArgs(s, info.args);
    FrameWritten(s.Calls(), s.hp, info, args, s.pc);
    ReadsKeep(s.mem, HeaderAccesses(a));
    RunConcat(s.mem, HeaderAccesses(a), CallWrites(s.Calls(), info, args, s.pc));
  }

  lemma {:induction false} NoAccess(m: Mem)
    ensures FlatRun(m, []) == (m, [])
  {
  }

  lemma {:induction false} ReadsOnly(code: Code, s: State, i: Instr<int>)
    requires s.status == Running && Execute(code, s, i).status == Running
    requires !(i.Store? || i.StoreB? || i.StoreG? || i.StoreL? || i.Alloc? || i.Call?)
    ensures Execute(code, s, i).mem == s.mem && FlatRun(s.mem, DataAccesses(code, s, i)).0 == s.mem
  {
    hide FlatRun, Read64, Read32, Get, Heap.Deallocate, Leave, SlotAddress, Apply, BitNot, ConvertTo;
    ReadsKeep(s.mem, DataAccesses(code, s, i));
  }

  lemma {:induction false} ReadsKeep(m: Mem, accesses: seq<Access>)
    requires forall i | 0 <= i < |accesses| :: accesses[i].ReadAt?
    ensures FlatRun(m, accesses).0 == m
    decreases |accesses|
  {
    hide FlatRead;
    if accesses != [] {
      ReadsKeep(m, accesses[1..]);
    }
  }

  /** A load pushes the last number it reads. */
  lemma {:induction false} LoadsRead(code: Code, s: State, i: Instr<int>)
    requires i.Load? || i.LoadB? || i.LoadG? || i.LoadL?
    requires s.status == Running && Execute(code, s, i).status == Running
    ensures var (u, r) := (Execute(code, s, i), FlatRun(s.mem, DataAccesses(code, s, i)).1);
      u.stack != [] && r != [] && Top(u, 0).raw == r[|r| - 1]
  {
    hide StoreBytes, FlatRead, FlatRun, Read64, Read32, Get, SlotAddress;
    match i {
      case Load(ty) =>
        OneRead(s.mem, Low(Top(s, 0)), Width(ty));
        TypedRead(s.mem, Low(Top(s, 0)), ty);
      case LoadB =>
        OneRead(s.mem, Low(Top(s, 0)), 1);
        ByteRead(s.mem, Low(Top(s, 0)));
      case LoadL(_, off) =>
        var a := SlotAddress(s.Calls(), off).value;
        OneRead(s.mem, a, 8);
        FlatRead64(s.mem, a);
      case LoadG(a) =>
        var ty := GlobalTy(Get(s.mem, a - 1)).value;
        OneRead(s.mem, a - 1, 1);
        OneRead(s.mem, a, Width(ty));
        TypedRead(s.mem, a, ty);
        RunConcat(s.mem, [ReadAt(a - 1, 1)], [ReadAt(a, Width(ty))]);
    }
  }

  lemma {:induction false} TypedRead(m: Mem, a: int, ty: Ty)
    ensures FlatRead(m, a, Width(ty)) == ReadTyped(m, a, ty).raw
  {
    hide FlatRead, Read32, Read64;
    FlatRead32(m, a);
    FlatRead64(m, a);
  }

  lemma {:induction false} ByteRead(m: Mem, a: int)
    ensures FlatRead(m, a, 1) == Get(m, a)
  {
    hide Get;
    assert FlatRead(m, a, 1) == FlatRead(m, a, 0) + Get(m, a);
  }

  // ---------------------------------------------------------------- one step on pages

  /** The code bytes of a state stand in its memory below the data region. */
  ghost predicate CodeStored(s: State, b: Bytes) {
    Stored(s.mem, b) && s.dataStart == |b|
  }

  lemma {:induction false} PagedIsTyped(m: Mem, a: int, ty: Ty)
    requires InOnePage(a, Width(ty))
    ensures PagedValue(m, a, ty) == ReadTyped(m, a, ty)
  {
    hide PagedRead, FlatRead, Read32, Read64, InOnePage;
    PagedReadIsFlat(m, a, Width(ty));
    TypedRead(m, a, ty);
  }

  lemma {:induction false} PagedIsWord(m: Mem, a: int)
    ensures InOnePage(a, 4) ==> PagedRead(m, a, 4) == Read32(m, a)
    ensures InOnePage(a, 8) ==> PagedRead(m, a, 8) == Read64(m, a)
  {
    hide PagedRead, FlatRead, Read32, Read64, InOnePage;
    if InOnePage(a, 4) {
      PagedReadIsFlat(m, a, 4);
      FlatRead32(m, a);
    }
    if InOnePage(a, 8) {
      PagedReadIsFlat(m, a, 8);
      FlatRead64(m, a);
    }
  }

  lemma {:induction false} CalmInPages(dataStart: int, xs: seq<Access>)
    requires AllCalm(dataStart, xs)
    ensures InPages(xs)
  {
  }

  /** Without an access that crosses a page end an instruction does on pages what it does on the flat map. */
  lemma {:induction false} ExecuteOnPages(code: Code, b: Bytes, s: State, i: Instr<int>)
    requires code == CodeOf(b) && CodeStored(s, b) && AllCalm(s.dataStart, DataAccesses(code, s, i))
    requires i.Call? ==> i.target in code.headers
    ensures PagedExecute(s, i) == Execute(code, s, i)
  {
    hide PagedRead, Read32, Read64, Get, InOnePage, Heap.Release, Heap.Allocate, Enter, SlotAddress, PopArgs, CodeOf,
      CallWrites, AllocWrites, Apply, BitNot, ConvertTo, PagedStore, PagedCall, PagedLoad, PagedLoadG, PagedLoadL,
      PagedFree, PagedRet, ExecCall, ExecLoad, ExecLoadG, ExecLoadL, ExecFree, ExecRet, AllCalm, ExecArith, ExecAlloc,
      ExecStore, ExecStoreB, ExecStoreG, ExecStoreL, ExecAddrL, ExecThrow, ExecRotD, ExecRotU, ExecSwap, ExecLoadB,
      ExecBranch, Push1, PushOutcome;
    match i {
      case Load(ty) => LoadOnPages(code, s, ty);
      case LoadG(a) => LoadGOnPages(code, s, a);
      case LoadL(ty, off) => LoadLOnPages(code, s, ty, off);
      case Store => StoreOnPages(code, s, i);
      case StoreG(_) => StoreOnPages(code, s, i);
      case StoreL(_) => StoreOnPages(code, s, i);
      case Alloc => StoreOnPages(code, s, i);
      case Free => FreeOnPages(code, s);
      case Call(a) => CallOnPages(code, b, s, a);
      case Ret => RetOnPages(code, s);
      case _ => CodeIgnored(code, s, i);
    }
  }

  /** Only a call looks at the method headers. */
  lemma {:induction false} CodeIgnored(code: Code, s: State, i: Instr<int>)
    requires !i.Call?
    ensures Execute(NO_CODE, s, i) == Execute(code, s, i)
  {
    hide ExecArith, ExecAlloc, ExecFree, ExecLoad, ExecLoadG, ExecLoadL, ExecStore, ExecStoreB, ExecStoreG, ExecStoreL,
      ExecAddrL, ExecRet, ExecThrow, ExecRotD, ExecRotU, ExecSwap, ExecLoadB, ExecBranch, Push1, PushOutcome, ConvertTo,
      BitNot;
  }

  lemma {:induction false} StoreOnPages(code: Code, s: State, i: Instr<int>)
    requires i.Store? || i.StoreG? || i.StoreL? || i.Alloc?
    requires AllCalm(s.dataStart, DataAccesses(code, s, i))
    ensures PagedStore(s, i) == Execute(code, s, i)
  {
    hide Get, InOnePage, Heap.Allocate, SlotAddress, AllocWrites, Write32, Write64;
    CalmInPages(s.dataStart, DataAccesses(code, s, i));
  }

  lemma {:induction false} LoadOnPages(code: Code, s: State, ty: Ty)
    requires AllCalm(s.dataStart, DataAccesses(code, s, Load(ty)))
    ensures PagedLoad(s, ty) == ExecLoad(s, ty)
  {
    hide PagedRead, ReadTyped;
    if |s.stack| >= 1 && IsPointer(s, Top(s, 0)) {
      assert DataAccesses(code, s, Load(ty))[0] == ReadAt(Low(Top(s, 0)), Width(ty));
      PagedIsTyped(s.mem, Low(Top(s, 0)), ty);
    }
  }

  lemma {:induction false} LoadGOnPages(code: Code, s: State, a: int)
    requires AllCalm(s.dataStart, DataAccesses(code, s, LoadG(a)))
    ensures PagedLoadG(s, a) == ExecLoadG(s, a)
  {
    hide PagedRead, ReadTyped, Get;
    var ty := GlobalTy(Get(s.mem, a - 1));
    if InData(s, ToWord(a - 1)) && InData(s, a) && ty.Ok? {
      assert DataAccesses(code, s, LoadG(a))[1] == ReadAt(a, Width(ty.value));
      PagedIsTyped(s.mem, a, ty.value);
    }
  }

  lemma {:induction false} LoadLOnPages(code: Code, s: State, ty: Ty, off: int)
    requires AllCalm(s.dataStart, DataAccesses(code, s, LoadL(ty, off)))
    ensures PagedLoadL(s, ty, off) == ExecLoadL(s, ty, off)
  {
    hide PagedRead, Read64, SlotAddress;
    if SlotAddress(s.Calls(), off).Ok? && InCallStack(s, SlotAddress(s.Calls(), off).value) {
      var a := SlotAddress(s.Calls(), off).value;
      assert DataAccesses(code, s, LoadL(ty, off))[0] == ReadAt(a, 8);
      PagedIsWord(s.mem, a);
    }
  }

  lemma {:induction false} FreeOnPages(code: Code, s: State)
    requires AllCalm(s.dataStart, DataAccesses(code, s, Free))
    ensures PagedFree(s) == ExecFree(s)
  {
    hide PagedRead, Read32, Heap.Release;
    if |s.stack| >= 1 && InHeap(s, ToWord(Low(Top(s, 0)) - Heap.HEADER)) {
      var a := Low(Top(s, 0)) - Heap.HEADER;
      assert DataAccesses(code, s, Free)[0] == ReadAt(a, 4);
      PagedIsWord(s.mem, a);
    }
  }

  lemma {:induction false} CallOnPages(code: Code, b: Bytes, s: State, a: int)
    requires code == CodeOf(b) && CodeStored(s, b) && AllCalm(s.dataStart, CallAccesses(code, s, a))
    requires a in code.headers
    ensures PagedCall(s, a) == ExecCall(code, s, a)
  {
    hide Number, Enter, PopArgs, CallWrites, FetchHeader, Stored, Decode;
    var h := code.headers[a];
    assert CallAccesses(code, s, a)[1] == ReadAt(a + 1, 4);
    HeaderExact(s.mem, b, a);
    assert FetchHeader(s.mem, s.dataStart, a).value == h;
    if |s.stack| >= h.args {
      var info, args := FrameInfo(h.args, h.locals), PopArgs(s, h.args);
      if Enter(s.Calls(), s.hp, info, args, s.pc).Ok? {
        CalmConcat(s.dataStart, HeaderAccesses(a), CallWrites(s.Calls(), info, args, s.pc));
        CalmInPages(s.dataStart, CallWrites(s.Calls(), info, args, s.pc));
      }
    }
  }

  lemma {:induction false} RetOnPages(code: Code, s: State)
    requires AllCalm(s.dataStart, DataAccesses(code, s, Ret))
    ensures PagedRet(s) == ExecRet(s)
  {
    hide PagedRead, Read32;
    if s.frames != [] {
      assert DataAccesses(code, s, Ret)[0] == ReadAt(s.fp, 4) && DataAccesses(code, s, Ret)[1] == ReadAt(s.fp + 4, 4);
      PagedIsWord(s.mem, s.fp);
      PagedIsWord(s.mem, s.fp + 4);
    }
  }

  // ---------------------------------------------------------------- the code stays

  lemma {:induction false} WritesAbove(m: Mem, b: Bytes, dataStart: int, xs: seq<Access>)
    requires Stored(m, b) && |b| <= dataStart && AllCalm(dataStart, xs)
    ensures Stored(FlatRun(m, xs).0, b)
    decreases |xs|
  {
    hide FlatRead;
    if xs != [] {
      var rest := xs[1..];
      assert forall i | 0 <= i < |rest| :: rest[i] == xs[i + 1];
      assert Calm(dataStart, xs[0]);
      match xs[0]
      case ReadAt(_, _) => WritesAbove(m, b, dataStart, rest);
      case WriteAt(a, v, n) =>
        BytesAbove(m, b, a, v, n);
        WritesAbove(StoreBytes(m, a, v, n), b, dataStart, rest);
    }
  }

  lemma {:induction false} BytesAbove(m: Mem, b: Bytes, a: int, v: int, n: nat)
    requires Stored(m, b) && |b| <= a
    ensures Stored(StoreBytes(m, a, v, n), b)
    decreases n
  {
    hide Radix;
    if n > 0 {
      BytesAbove(m, b, a, v, n - 1);
    }
  }

  lemma {:induction false} CodeStays(code: Code, b: Bytes, s: State, i: Instr<int>)
    requires s.status == Running && Execute(code, s, i).status == Running
    requires CodeStored(s, b) && AllCalm(s.dataStart, DataAccesses(code, s, i))
    ensures CodeStored(Execute(code, s, i), b)
  {
    hide AllCalm, DataAccesses, FlatRun, Stored;
    AccessesExact(code, s, i);
    WritesAbove(s.mem, b, s.dataStart, DataAccesses(code, s, i));
    DataStartStays(code, s, i);
  }

  lemma {:induction false} DataStartStays(code: Code, s: State, i: Instr<int>)
    ensures Execute(code, s, i).dataStart == s.dataStart
  {
    hide Enter, Leave, SlotAddress, Apply, BitNot, ConvertTo, Heap.Allocate, Heap.Deallocate, Get, Read32, Read64;
  }

  // ---------------------------------------------------------------- whole runs

  lemma {:induction false} StepOnPages(code: Code, b: Bytes, s: State)
    requires code == CodeOf(b) && CodeStored(s, b) && StepCalm(code, s)
    ensures PagedStep(s) == Step(code, s)
    ensures Step(code, s).status == Running ==> CodeStored(Step(code, s), b)
  {
    hide Execute, PagedExecute, AllCalm, DataAccesses, FetchAccesses, Decode, Stored, FetchInstruction, FetchInPage;
    if s.status == Running {
      StepIsCalm(code, s);
      var i := code.ops[s.pc];
      assert i == Decode(b, s.pc).value;
      FetchExact(s.mem, b, s.pc);
      var t := s.(pc := s.pc + Size(i));
      ExecuteOnPages(code, b, t, i);
      if Execute(code, t, i).status == Running {
        CodeStays(code, b, t, i);
      }
    }
  }

  /** A run of the machine on decoded instructions and a flat memory, no step of which crosses a page end or
      stores into the code, is the run of the VM on its pages: same operands, memory, registers and status
      after every step, with each instruction and method header fetched from the bytes in memory. */
  lemma {:induction false} RunOnPages(code: Code, b: Bytes, s: State, k: nat)
    requires code == CodeOf(b) && CodeStored(s, b) && RunCalm(code, s, k)
    ensures PagedSteps(s, k) == Run(code, s, k)
    decreases k
  {
    hide Step, PagedStep, StepCalm, CodeOf, CodeStored;
    if k > 0 {
      assert StepCalm(code, Run(code, s, 0));
      StepOnPages(code, b, s);
      var u := Step(code, s);
      if u.status != Running {
        Stays(code, u, k - 1);
        PagedStays(u, k - 1);
      } else {
        forall j: nat | j < k - 1
          ensures StepCalm(code, Run(code, u, j))
        {
          assert StepCalm(code, Run(code, s, j + 1));
        }
        RunOnPages(code, b, u, k - 1);
      }
    }
  }

  lemma {:induction false} PagedStays(s: State, k: nat)
    requires s.status != Running
    ensures PagedSteps(s, k) == s
    decreases k
  {
    if k > 0 {
      PagedStays(s, k - 1);
    }
  }
}
