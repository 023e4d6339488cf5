/** User functions in an assembled program: at the label of each stand its header and its code, and calling it
    with its arguments on the operand stack runs its body on them, down to the return. */
module UserCalls {
  import opened Words
  import opened Isa
  import opened FlatMemory
  import opened Arithmetic
  import opened Frames
  import opened FrameLaws
  import opened Machine
  import opened Accesses
  import opened Pages
  import opened FramePages
  import opened Source
  import opened SourceLaws
  import opened Domain
  import opened CodeGen
  import opened Cursor
  import opened Simulation
  import opened StmSimulation
  import opened Program
  import opened FunctionExit
  import opened Assembler
  import opened Loading
  import opened EndToEnd
  import opened UserFunctions
  import opened PagedRuns

  // ---------------------------------------------------------------- what is loaded

  /** The header of a function, with its numbers of arguments and locals, and its code behind it. */
  ghost predicate FunctionLoaded(im: Image, f: FunctionDecl, k: nat) {
    var l := MethodLabel(Function(f.name));
    && l in im.labels && IsWord(im.labels[l])
    && im.labels[l] in im.code.headers && im.code.headers[im.labels[l]] == Machine.Header(f.args, f.locals)
    && InOnePage(im.labels[l] + 1, 4)
    && Cursor.Loaded(im, im.labels[l] + 5, FunctionCode(f.body, f.isVoid, k))
  }

  /** Without range loops the code of a function is that of its body in scope methods. */
  lemma {:induction false} DeclIsFunctionCode(f: FunctionDecl, n: nat, next: nat)
    requires NoRangeLoop(f)
    ensures DeclCode(f, n, next) == FunctionCode(f.body, f.isVoid, n)
  {
    SameBlock(f.body, n, Registered(next), NoLoop);
  }

  lemma {:induction false} DeclPosition(ms: seq<ScopeMethod>, fs: seq<FunctionDecl>, i: nat, n: nat)
    requires i < n <= |fs|
    ensures ProgramItems(ms, fs, i)
      + DeclItems(fs[i], CounterAt(ms, |ms|) + LabelsBefore(fs, i), |ms| + RangesBefore(fs, i))
      <= ProgramItems(ms, fs, n)
    decreases n
  {
    hide DeclItems, ItemsUpTo;
    if i + 1 < n {
      DeclPosition(ms, fs, i, n - 1);
    }
  }

  lemma {:induction false} ProgramPosition(ms: seq<ScopeMethod>, fs: seq<FunctionDecl>, n: nat)
    requires n <= |fs|
    ensures ItemsUpTo(ms, |ms|) <= ProgramItems(ms, fs, n)
    decreases n
  {
    hide DeclItems, ItemsUpTo;
    if n > 0 {
      ProgramPosition(ms, fs, n - 1);
    }
  }

  lemma {:induction false} FunctionIsLoaded(ms: seq<ScopeMethod>, fs: seq<FunctionDecl>, im: Image, i: nat)
    requires i < |fs| && Assembled(StatementsWith(ms, fs), im) && CodeInPages(StatementsWith(ms, fs))
    requires NoRangeLoop(fs[i]) && fs[i].locals < W32
    ensures FunctionLoaded(im, fs[i], CounterAt(ms, |ms|) + LabelsBefore(fs, i))
  {
    hide Assembled, Flatten, Cursor.Loaded, CounterAt, DeclCode, FunctionCode, Length, InOnePage, Resolve, LabelsKnown,
      CodeLen, ItemsUpTo, NoRangeLoop;
    var ss, f, n, next := StatementsWith(ms, fs), fs[i], CounterAt(ms, |ms|) + LabelsBefore(fs, i),
      |ms| + RangesBefore(fs, i);
    var p, a := |ProgramItems(ms, fs, i)|, DeclCode(f, n, next);
    DeclIsFunctionCode(f, n, next);
    DeclPosition(ms, fs, i, |fs|);
    var header, code := MethodDef(MethodLabel(Function(f.name)), f.args, f.locals), Flatten(a);
    assert ss[p] == Statement.Code(header);
    LoadedItem(ss, im, p);
    assert StatementInPages(CodeLen(ss[..p]), ss[p]);
    assert ProgramItems(ms, fs, |fs|)[p + 1..p + 1 + |code|] == code;
    assert ss[p + 1..p + 1 + |code|] == AsCode(code);
    LoadedAt(ss, im, p + 1, a);
  }

  // ---------------------------------------------------------------- the call

  function Argument(A: seq<Value>, j: int): int
    requires 1 <= j <= |A|
  {
    Low(A[j - 1])
  }

  /** The slots of the arguments, in the order in which they are written. */
  function ArgStore(A: seq<Value>): Store {
    map j | 1 <= j <= |A| :: Argument(A, j)
  }

  /** Arguments in slots that are to be clean have no high half. */
  predicate ArgsFit(A: seq<Value>, dirty: set<int>) {
    forall j | 1 <= j <= |A| && j !in dirty :: A[j - 1].raw < W32
  }

  function CellsOf(f: FunctionDecl): nat {
    f.args + 1 + f.locals
  }

  /** A state from which functions may be called: d cells of the call stack are in use, and the frame of this one
      would not reach a straddling cell. */
  predicate CallReady(t: State, f: FunctionDecl, d: nat) {
    && IsWord(t.fp) && IsWord(t.pc + 5) && 0 <= t.dataStart <= t.hp < t.sp == MAX_ADDR - 8 * d
    && d / 512 == (d + CellsOf(f)) / 512 && f.locals < W32
  }

  /** In a program that has just started, any function of up to 511 cells may be called. */
  lemma {:induction false} FirstCallReady(mem: Mem, dataStart: int, hb: int, pc: int, stack: seq<Value>,
          f: FunctionDecl)
    requires 0 <= dataStart <= hb < MAX_ADDR && 0 <= pc && pc + 5 < W32
    ensures CallReady(Initial(mem, dataStart, hb).(pc := pc, stack := stack), f, 0) <==> CellsOf(f) <= 511
  {
  }

  predicate RoomFor(t: State, f: FunctionDecl) {
    8 * CellsOf(f) < t.sp - t.hp
  }

  /** The body of the new call is about to run. */
  ghost predicate Entered(im: Image, s: State, n: nat, t: State, f: FunctionDecl, k: nat, S: seq<Value>, A: seq<Value>,
          dirty: set<int>, u: State) {
    && At(im, s, n, u, FunctionCode(f.body, f.isVoid, k), u.pc + Length(FunctionCode(f.body, f.isVoid, k)))
    && FrameBuilt(t.Calls(), FrameInfo(f.args, f.locals), Raw(A), t.pc + 5, u.Calls())
    && Represented(u, Frame(f.args, f.locals, dirty), ArgStore(A))
    && u == t.(pc := u.pc, stack := S, mem := u.mem, fp := u.fp, sp := u.sp, frames := u.frames)
  }

  /** Arguments as they are popped, last one first. */
  function Raw(A: seq<Value>): seq<int> {
    seq(|A|, i requires 0 <= i < |A| => A[|A| - 1 - i].raw % W64)
  }

  lemma {:induction false} PoppedArgs(t: State, S: seq<Value>, A: seq<Value>)
    requires t.stack == S + A
    ensures PopArgs(t, |A|) == Raw(A) && Drop(t, |A|) == S && RawArgs(Raw(A))
  {
  }

  lemma {:induction false} CallFits(im: Image, t: State, f: FunctionDecl, k: nat, S: seq<Value>, A: seq<Value>, d: nat)
    requires FunctionLoaded(im, f, k) && CallReady(t, f, d) && t.stack == S + A && |A| == f.args
    ensures InsCalm(im, t, Call(MethodLabel(Function(f.name))))
  {
    hide CallWrites, Cursor.Loaded, StoreArgs, ZeroLocals, Write32, InOnePage, CellsInPages;
    var l := MethodLabel(Function(f.name));
    var t1 := After(t, Call(l));
    var a, c, info := im.labels[l], t1.Calls(), FrameInfo(f.args, f.locals);
    PoppedArgs(t1, S, A);
    EnterRefusedExact(c, t.hp, info, Raw(A), t1.pc);
    var ok := Enter(c, t.hp, info, Raw(A), t1.pc).Ok?;
    var writes := if ok then CallWrites(c, info, Raw(A), t1.pc) else [];
    if ok {
      FrameInPagesExact(d, CellsOf(f));
      CallFrameExact(t.dataStart, c, info, Raw(A), t1.pc, d);
    }
    HeaderCalm(t.dataStart, a);
    CalmConcat(t.dataStart, HeaderAccesses(a), writes);
    assert CallAccesses(im.code, t1, a) == HeaderAccesses(a) + writes;
  }

  lemma {:induction false} HeaderCalm(dataStart: int, a: int)
    requires InOnePage(a + 1, 4)
    ensures AllCalm(dataStart, HeaderAccesses(a))
  {
  }

  /** The call itself: the frame is refused exactly when there is no room for it; else control is at the first
      instruction of the body, the slots hold the arguments, and the locals are zero. */
  lemma {:induction false} EnterFunction(im: Image, s: State, n: nat, t: State, f: FunctionDecl, k: nat, rest: Asm,
          end: int, S: seq<Value>, A: seq<Value>, dirty: set<int>, d: nat) returns (u: State)
    requires At(im, s, n, t, Ins(Call(MethodLabel(Function(f.name))), rest), end) && FunctionLoaded(im, f, k)
    requires CallReady(t, f, d) && t.stack == S + A && |A| == f.args && ArgsFit(A, dirty)
    ensures !RoomFor(t, f) ==> Reaches(im.code, s, n, u) && u.status == Failed(StackOverflow)
    ensures RoomFor(t, f) ==> Entered(im, s, n, t, f, k, S, A, dirty, u)
  {
    hide Read64, Read32, Get, Run, Cursor.Loaded, Length, FunctionCode, StoreArgs, ZeroLocals, Write32, SameOutside,
      Reaches, InsCalm, Raw, RawArgs, PopArgs, Drop, Represented, ArgsFit, Enter, FrameBuilt;
    var call: Instr<Label> := Call(MethodLabel(Function(f.name)));
    var t1, info := After(t, call), FrameInfo(f.args, f.locals);
    CallFits(im, t, f, k, S, A, d);
    DoIns(im, s, n, t, call, rest, end);
    u := Execute(im.code, t1, Resolve(call, im.labels));
    ReachesWeaken(im.code, s, n + 1, n, u);
    var a := im.labels[MethodLabel(Function(f.name))];
    PoppedArgs(t1, S, A);
    assert t1.Calls() == t.Calls();
    assert u == ExecCall(im.code, t1, a);
    RawLength(A);
    EnterRefusedExact(t.Calls(), t.hp, info, Raw(A), t.pc + 5);
    if RoomFor(t, f) {
      EnterBuilds(t.Calls(), t.hp, info, Raw(A), t.pc + 5);
      SpansSelf(im, a + 5, FunctionCode(f.body, f.isVoid, k));
      FrameHolds(t, u, f, A, dirty, d);
    }
  }

  lemma {:induction false} RawLength(A: seq<Value>)
    ensures |Raw(A)| == |A|
  {
  }

  /** The frame that has been built represents the arguments. */
  lemma {:induction false} FrameHolds(t: State, u: State, f: FunctionDecl, A: seq<Value>, dirty: set<int>, d: nat)
    requires FrameBuilt(t.Calls(), FrameInfo(f.args, f.locals), Raw(A), t.pc + 5, u.Calls()) && CallReady(t, f, d)
    requires RoomFor(t, f) && |A| == f.args && ArgsFit(A, dirty) && u.dataStart == t.dataStart
    ensures Represented(u, Frame(f.args, f.locals, dirty), ArgStore(A))
  {
    hide Read64, Read32, Get, SameOutside, InOnePage;
    var fr := Frame(f.args, f.locals, dirty);
    FrameInPagesExact(d, CellsOf(f));
    forall j | SlotOk(j, fr)
      ensures CellInPage(u, j)
    {
      var k := f.args + 1 - j;
      assert u.fp + 8 * j == t.sp - 8 * k && 1 <= k <= CellsOf(f);
    }
    forall j | SlotOk(j, fr)
      ensures Simulation.Holds(Read64(u.mem, u.fp + 8 * j), j, Fetch(ArgStore(A), j), fr)
    {
      if j >= 1 {
        assert Read64(u.mem, u.fp + 8 * j) == Raw(A)[f.args - j] == A[j - 1].raw % W64;
        LowOfRaw(A[j - 1]);
      } else {
        assert u.fp + 8 * j == u.fp - 8 * (-j);
      }
    }
  }

  lemma {:induction false} LowOfRaw(v: Value)
    ensures v.raw % W64 % W32 == Low(v) && (v.raw < W32 ==> v.raw % W64 == Low(v))
  {
  }

  // ---------------------------------------------------------------- the return

  /** Back at the caller, behind the call: its registers and operands are as they were, with the result on top,
      and no byte outside the frame that was given up has changed. */
  ghost predicate CameBack(t: State, f: FunctionDecl, S: seq<Value>, u: State, ty: Type, result: Option<int>) {
    && u == t.(pc := t.pc + 5, stack := u.stack, mem := u.mem)
    && (forall a | a < t.sp - 8 * CellsOf(f) || t.sp <= a :: Get(u.mem, a) == Get(t.mem, a))
    && match result
       case None => u.stack == S
       case Some(w) => |u.stack| == |S| + 1 && u.stack[..|S|] == S && u.stack[|S|].ty == AsmTy(ty)
                       && Low(u.stack[|S|]) == w
  }

  lemma {:induction false} DoFunctionReturn(im: Image, s: State, n: nat, t: State, u1: State, u2: State,
          f: FunctionDecl, S: seq<Value>, A: seq<Value>, dirty: set<int>, d: nat) returns (u: State)
    requires CallReady(t, f, d) && RoomFor(t, f) && |A| == f.args && t.status == Running
    requires FrameBuilt(t.Calls(), FrameInfo(f.args, f.locals), Raw(A), t.pc + 5, u1.Calls())
    requires u1 == t.(pc := u1.pc, stack := S, mem := u1.mem, fp := u1.fp, sp := u1.sp, frames := u1.frames)
    requires u2.status == Running && Reaches(im.code, s, n, u2) && u2.pc in im.code.ops && im.code.ops[u2.pc] == Ret
    requires Keeps(u1, u2, Frame(f.args, f.locals, dirty))
    ensures Reaches(im.code, s, n, u) && u == t.(pc := t.pc + 5, stack := u2.stack, mem := u.mem)
    ensures forall a | a < t.sp - 8 * CellsOf(f) || t.sp <= a :: Get(u.mem, a) == Get(t.mem, a)
  {
    hide Read64, Read32, Get, Run, Reaches, InOnePage, Raw;
    var fr := Frame(f.args, f.locals, dirty);
    BasePage(t, f, d);
    RetSpans(im, u2.pc);
    DoIns(im, s, n, u2, Ret, Done, u2.pc + 1);
    u := Execute(im.code, After(u2, Ret), Ret);
    ReachesWeaken(im.code, s, n + 1, n, u);
    BaseKept(u1, u2, fr);
    LeaveUndoesEnter(t.Calls(), FrameInfo(f.args, f.locals), Raw(A), t.pc + 5, u1.Calls(), After(u2, Ret).Calls());
    forall a | a < t.sp - 8 * CellsOf(f) || t.sp <= a
      ensures Get(u.mem, a) == Get(t.mem, a)
    {
      assert !InSlots(u1, fr, a);
      assert Get(u1.mem, a) == Get(t.mem, a);
    }
  }

  /** The cell that a return reads lies in one page. */
  lemma {:induction false} BasePage(t: State, f: FunctionDecl, d: nat)
    requires CallReady(t, f, d) && RoomFor(t, f)
    ensures var fp := t.sp - 8 - 8 * f.args; InOnePage(fp, 4) && InOnePage(fp + 4, 4)
  {
    hide InOnePage;
    FrameInPagesExact(d, CellsOf(f));
    FrameCellStraddles(d + f.args + 1);
    assert InOnePage(t.sp - 8 * (f.args + 1), 8);
  }

  lemma {:induction false} RetSpans(im: Image, at: int)
    requires at in im.code.ops && im.code.ops[at] == Ret
    ensures Spans(im, at, Ins(Ret, Done), at + 1)
  {
    assert Length(Done) == 0;
  }

  // ---------------------------------------------------------------- the theorem

  /** Accepted by the analyser and in the domain of the code generator, with the given slots dirty. */
  predicate FunctionOk(f: FunctionDecl, dirty: set<int>) {
    var fr := Frame(f.args, f.locals, dirty);
    BodyAccepted(f.body, f.isVoid, fr) && SoundBlock(f.body, fr)
  }

  /** What a call of a function does, from the call instruction to the one behind it: the body as its statements
      mean, on the arguments. */
  ghost predicate Called(im: Image, s: State, n: nat, fuel: nat, t: State, f: FunctionDecl, S: seq<Value>, u: State,
          r: Flow) {
    match r
    case Returned(_, ty, result) => Reaches(im.code, s, n, u) && CameBack(t, f, S, u, ty, result)
    case Next(_) => f.isVoid && Reaches(im.code, s, n, u) && CameBack(t, f, S, u, TInt, None)
    case Raised(g) => Reaches(im.code, s, n, u) && u.status == Failed(g)
    case OutOfFuel => Reaches(im.code, s, n + fuel, u) && u.status == Running
    case _ => false
  }

  /** Calling a function that is loaded, with its arguments on top of the operands S: the call overflows exactly
      when there is no room for the frame; else it ends as the body does on the arguments, a void function also at
      the end of its body. */
  lemma {:induction false} CallCorrect(im: Image, s: State, n: nat, t: State, f: FunctionDecl, k: nat, rest: Asm,
          end: int, S: seq<Value>, A: seq<Value>, dirty: set<int>, d: nat, fuel: nat) returns (u: State)
    requires At(im, s, n, t, Ins(Call(MethodLabel(Function(f.name))), rest), end) && FunctionLoaded(im, f, k)
    requires FunctionOk(f, dirty) && CallReady(t, f, d) && |S| + NeedBlock(f.body) <= MAX_OPERANDS
    requires t.stack == S + A && |A| == f.args && ArgsFit(A, dirty)
    ensures !RoomFor(t, f) ==> Reaches(im.code, s, n, u) && u.status == Failed(StackOverflow)
    ensures RoomFor(t, f) ==> Called(im, s, n, fuel, t, f, S, u, ExecBlock(fuel, f.body, ArgStore(A)))
  {
    hide Read64, Get, Run, Step, Execute, Reaches, Spans, Cursor.Loaded, Length, Represented, Keeps, FrameBuilt,
      CodeBlock, WellTypedBlock, SoundBlock, ExecBlock, NeedBlock, BlockAlwaysReturns, FunctionLoaded, CallReady,
      ArgStore, CameBack, RoomFor, ArgsFit;
    u := EnterFunction(im, s, n, t, f, k, rest, end, S, A, dirty, d);
    if RoomFor(t, f) {
      var u1, fr, pl := u, Frame(f.args, f.locals, dirty), Place(false, true);
      var body, r := CodeBlock(f.body, k, NoLoop), ExecBlock(fuel, f.body, ArgStore(A));
      var last := u1.pc + Length(FunctionCode(f.body, f.isVoid, k));
      var mid := if f.isVoid then u1.pc + Length(body) else last;
      if f.isVoid {
        SpansSeq(im, u1.pc, body, Ins(Ret, Done), last);
      }
      var u2 := SimBlock(im, s, n, u1, f.body, k, mid, fr, pl, NoLoop, fuel, ArgStore(A));
      NoJumpBlock(f.body, fr, pl, fuel, ArgStore(A));
      if !f.isVoid {
        FunctionBodyNeverFallsOff(f.body, fr, fuel, ArgStore(A));
      }
      u := u2;
      if r.Next? {
        RetLoaded(im, mid, last);
      }
      if r.Next? || r.Returned? {
        StillRunning(im, s, n, t, Ins(Call(MethodLabel(Function(f.name))), rest), end);
        u := DoFunctionReturn(im, s, n, t, u1, u2, f, S, A, dirty, d);
        Back(t, f, S, u2, u, if r.Next? then TInt else r.ty, if r.Next? then None else r.result);
      }
    }
  }

  lemma {:induction false} StillRunning(im: Image, s: State, n: nat, t: State, a: Asm, end: int)
    requires At(im, s, n, t, a, end)
    ensures t.status == Running
  {
  }

  lemma {:induction false} Back(t: State, f: FunctionDecl, S: seq<Value>, u2: State, u: State, ty: Type,
          result: Option<int>)
    requires u == t.(pc := t.pc + 5, stack := u2.stack, mem := u.mem)
    requires forall a | a < t.sp - 8 * CellsOf(f) || t.sp <= a :: Get(u.mem, a) == Get(t.mem, a)
    requires match result
             case None => u2.stack == S
             case Some(w) => |u2.stack| == |S| + 1 && u2.stack[..|S|] == S && u2.stack[|S|].ty == AsmTy(ty)
                             && Low(u2.stack[|S|]) == w
    ensures CameBack(t, f, S, u, ty, result)
  {
  }

  /** Programs with user functions, from source to bytes: the assembler accepts them, the VM on its pages ends or
      runs on as the top-level program means, and every function is loaded with its header and its code. */
  lemma {:induction false} ProgramWithFunctionsCorrect(ms: seq<ScopeMethod>, fs: seq<FunctionDecl>, r: Ending)
    returns (im: Image)
    requires ProgramOk(ms) && DistinctNames(fs) && r != Unfinished
    requires forall i | 0 <= i < |fs| :: NoRangeLoop(fs[i]) && fs[i].locals < W32
    requires CodeLen(StatementsWith(ms, fs)) + HEADER_SIZE < W32 && CodeInPages(StatementsWith(ms, fs))
    ensures AllKnown(StatementsWith(ms, fs), Table(StatementsWith(ms, fs)))
    ensures ReadBytecode(Assembly(StatementsWith(ms, fs))).Some?
    ensures var l := ReadBytecode(Assembly(StatementsWith(ms, fs))).value;
      && (PagedEnds(StartOf(l), StatusOf(r)) <==> SourceEnds(ms, l.hb, r))
      && (PagedRunsForever(StartOf(l)) <==> SourceDiverges(ms, l.hb))
      && im == Image(CodeOf(l.code), Table(StatementsWith(ms, fs)))
    ensures forall i | 0 <= i < |fs| :: FunctionLoaded(im, fs[i], CounterAt(ms, |ms|) + LabelsBefore(fs, i))
  {
    hide ProgramItems, Table, CodeLen, SourceEnds, SourceDiverges, MethodOk, Assembly, ReadBytecode, NoRedefinition,
      Refs, PagedEnds, PagedRunsForever, CodeInPages, NoRangeLoop, Assembled, FunctionLoaded, CounterAt, LabelsBefore,
      CodeOf, CodeStored, StartOf, ImmediatesOk;
    var ss := StatementsWith(ms, fs);
    FunctionsAccepted(ms, fs);
    FrontOfProgram(ms, fs);
    ListCorrect(ms, ss, r);
    im := ListIsLoaded(ss);
    forall i | 0 <= i < |fs|
      ensures FunctionLoaded(im, fs[i], CounterAt(ms, |ms|) + LabelsBefore(fs, i))
    {
      FunctionIsLoaded(ms, fs, im, i);
    }
  }

  lemma {:induction false} FrontOfProgram(ms: seq<ScopeMethod>, fs: seq<FunctionDecl>)
    ensures ProgramStatements(ms) <= StatementsWith(ms, fs)
    ensures forall j | 0 <= j < |StatementsWith(ms, fs)| :: StatementsWith(ms, fs)[j].Code?
  {
    hide ProgramItems, ItemsUpTo;
    ProgramPosition(ms, fs, |fs|);
  }
}
