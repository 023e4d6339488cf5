/** Whole programs whose top-level statements are blocks and range loops: each becomes a scope method,
    the global code calls them in turn and halts. */
module Program {
  import opened Words
  import opened Isa
  import opened FlatMemory
  import opened Heap
  import opened Frames
  import opened FrameLaws
  import opened Machine
  import opened Accesses
  import opened Pages
  import opened FramePages
  import opened Source
  import opened SourceLaws
  import opened Domain
  import opened CodeGen
  import opened Cursor
  import opened Simulation
  import opened StmSimulation

  // ---------------------------------------------------------------- loaded programs

  ghost predicate MethodLoaded(im: Image, m: ScopeMethod, i: nat, n: nat) {
    var l := MethodLabel(Scope(i));
    && l in im.labels && IsWord(im.labels[l])
    && im.labels[l] in im.code.headers && im.code.headers[im.labels[l]] == Header(0, m.locals)
    && InOnePage(im.labels[l] + 1, 4)
    && Loaded(im, im.labels[l] + 5, MethodCode(m, n))
  }

  ghost predicate ProgramLoaded(im: Image, ms: seq<ScopeMethod>) {
    && Loaded(im, 0, GlobalCode(0, |ms|)) && Length(GlobalCode(0, |ms|)) < W32
    && forall i | 0 <= i < |ms| :: MethodLoaded(im, ms[i], i, CounterAt(ms, i))
  }

  // ---------------------------------------------------------------- meaning

  datatype Ending = Finished | Stopped(fault: Fault) | Unfinished

  /** Whether the frame of a method fits above the heap when the call stack is empty. */
  predicate Fits(m: ScopeMethod, hb: int) {
    8 + 8 * m.locals <= MAX_ADDR - hb - 1
  }

  /** Methods run one after the other, each with fresh locals that are zero. */
  function RunMethods(fuel: nat, ms: seq<ScopeMethod>, hb: int): Ending {
    if ms == [] then Finished
    else if !Fits(ms[0], hb) then Stopped(StackOverflow)
    else
      match Exec(fuel, ms[0].body, map[])
      case Next(_) => RunMethods(fuel, ms[1..], hb)
      case Raised(f) => Stopped(f)
      case _ => Unfinished
  }

  /** Accepted by the analyser and in the domain of the code generator, with the given slots dirty and a frame
      that stays in its pages. */
  predicate MethodFits(m: ScopeMethod, dirty: set<int>) {
    var fr := Frame(0, m.locals, dirty);
    && WellTypedStm(m.body, fr, Place(false, false)) && SoundStm(m.body, fr)
    && NeedStm(m.body) <= MAX_OPERANDS && m.locals <= MAX_LOCALS
  }

  ghost predicate MethodOk(m: ScopeMethod) {
    exists dirty: set<int> :: MethodFits(m, dirty)
  }

  ghost predicate ProgramOk(ms: seq<ScopeMethod>) {
    forall i | 0 <= i < |ms| :: MethodOk(ms[i])
  }

  /** The VM after readBytecode and initialiseHeap. */
  function Initial(mem: Mem, dataStart: int, hb: int): State {
    State(0, [], mem, MAX_ADDR, MAX_ADDR, hb, hb, dataStart, InitialList(hb), [], Running)
  }

  /** Between two scope methods only the program counter and memory may differ from the start. */
  predicate Idle(s: State, t: State) {
    t == s.(pc := t.pc, mem := t.mem)
  }

  ghost predicate EndsAs(im: Image, s: State, n: nat, fuel: nat, u: State, r: Ending) {
    match r
    case Finished => Reaches(im.code, s, n, u) && u.status == Halted && u.stack == [] && u.frames == []
    case Stopped(f) => Reaches(im.code, s, n, u) && u.status == Failed(f)
    case Unfinished => Reaches(im.code, s, fuel, u) && u.status == Running
  }

  // ---------------------------------------------------------------- one method

  /** The call of a scope method: it fails exactly when the frame does not fit, and otherwise control is at
      the method's first instruction with all locals zero. */
  lemma {:induction false} DoCallMethod(im: Image, s: State, t: State, m: ScopeMethod, i: nat, n: nat, rest: Asm,
          end: int, hb: int, dirty: set<int>) returns (u: State)
    requires At(im, s, 0, t, Ins(Call(MethodLabel(Scope(i))), rest), end) && MethodLoaded(im, m, i, n)
    requires MethodFits(m, dirty) && t.sp == MAX_ADDR && t.fp == MAX_ADDR && t.hp == hb && 0 <= hb < W32
    requires t.dataStart <= hb
    requires t.stack == [] && t.frames == []
    requires IsWord(t.pc + 5)
    ensures !Fits(m, hb) ==> Reaches(im.code, s, 0, u) && u.status == Failed(StackOverflow)
    ensures Fits(m, hb) ==>
      && At(im, s, 0, u, MethodCode(m, n), u.pc + Length(MethodCode(m, n)))
      && FrameBuilt(t.Calls(), FrameInfo(0, m.locals), [], t.pc + 5, u.Calls())
      && Represented(u, Frame(0, m.locals, dirty), map[])
      && u == t.(pc := u.pc, mem := u.mem, fp := u.fp, sp := u.sp, frames := u.frames)
  {
    hide Read64, Read32, Get, Run, Loaded, Length, MethodCode, StoreArgs, ZeroLocals, Write32, SameOutside, Reaches;
    var call: Instr<Label> := Call(MethodLabel(Scope(i)));
    CallCalm(im, t, m, i, n, hb);
    DoIns(im, s, 0, t, call, rest, end);
    var t1 := After(t, call);
    u := Execute(im.code, t1, Resolve(call, im.labels));
    ReachesWeaken(im.code, s, 1, 0, u);
    var info := FrameInfo(0, m.locals);
    var a := im.labels[MethodLabel(Scope(i))];
    assert Drop(t1, 0) == [];
    assert PopArgs(t1, 0) == [];
    assert u == ExecCall(im.code, t1, a);
    if Fits(m, hb) {
      EnterBuilds(t1.Calls(), t.hp, info, [], t.pc + 5);
      var c := Enter(t1.Calls(), t.hp, info, [], t.pc + 5).value;
      assert t1.Calls() == t.Calls();
      SpansSelf(im, a + 5, MethodCode(m, n));
      FreshFrame(t.Calls(), u, m.locals, dirty, t.pc + 5);
    }
  }

  /** The header is read and the frame written inside their pages. */
  lemma {:induction false} CallCalm(im: Image, t: State, m: ScopeMethod, i: nat, n: nat, hb: int)
    requires MethodLoaded(im, m, i, n) && m.locals <= MAX_LOCALS
    requires t.sp == MAX_ADDR && t.hp == hb && 0 <= hb < W32 && t.dataStart <= hb && t.frames == []
    ensures InsCalm(im, t, Call(MethodLabel(Scope(i))))
  {
    hide CallWrites, Loaded, StoreArgs, ZeroLocals, Write32;
    var l := MethodLabel(Scope(i));
    var t1 := After(t, Call(l));
    var a, c, info := im.labels[l], t1.Calls(), FrameInfo(0, m.locals);
    assert PopArgs(t1, 0) == [];
    var writes := if Enter(c, t.hp, info, [], t1.pc).Ok? then CallWrites(c, info, [], t1.pc) else [];
    if Enter(c, t.hp, info, [], t1.pc).Ok? {
      ScopeFrameExact(t.dataStart, c, m.locals, t1.pc);
    }
    CalmConcat(t.dataStart, HeaderAccesses(a), writes);
    assert CallAccesses(im.code, t1, a) == HeaderAccesses(a) + writes;
  }

  lemma {:induction false} SpansSelf(im: Image, at: int, a: Asm)
    requires Loaded(im, at, a)
    ensures Spans(im, at, a, at + Length(a))
  {
  }

  lemma {:induction false} FreshFrame(c: CallState, u: State, locals: nat, dirty: set<int>, ra: int)
    requires FrameBuilt(c, FrameInfo(0, locals), [], ra, u.Calls()) && c.sp == MAX_ADDR && locals <= MAX_LOCALS
    requires u.dataStart <= u.sp
    ensures Represented(u, Frame(0, locals, dirty), map[])
  {
    hide Read64, Read32, Get, SameOutside, InOnePage;
    forall j | SlotOk(j, Frame(0, locals, dirty))
      ensures CellInPage(u, j)
    {
      FrameCellStraddles(1 - j);
      assert u.fp + 8 * j == MAX_ADDR - 8 * (1 - j);
    }
    forall j | SlotOk(j, Frame(0, locals, dirty))
      ensures Holds(Read64(u.mem, u.fp + 8 * j), j, 0, Frame(0, locals, dirty))
    {
      assert u.fp + 8 * j == u.fp - 8 * (-j);
    }
  }

  /** The return of a scope method, from a state that kept everything outside the slots of its frame. */
  lemma {:induction false} DoReturn(im: Image, s: State, t: State, u1: State, u2: State, fr: Frame, end: int)
    returns (u: State)
    requires At(im, s, 0, u2, Ins(Ret, Done), end)
    requires fr.args == 0 && FrameBuilt(t.Calls(), FrameInfo(0, fr.locals), [], t.pc + 5, u1.Calls())
    requires Keeps(u1, u2, fr)
    requires u1 == t.(pc := u1.pc, mem := u1.mem, fp := u1.fp, sp := u1.sp, frames := u1.frames)
    requires t.sp == MAX_ADDR && u2.stack == u1.stack && t.status == Running
    ensures Reaches(im.code, s, 0, u) && u == t.(pc := t.pc + 5, mem := u.mem)
  {
    hide Read64, Run, Loaded, Length, SameOutside, Reaches, InOnePage;
    FrameCellStraddles(1);
    DoIns(im, s, 0, u2, Ret, Done, end);
    u := Execute(im.code, After(u2, Ret), Ret);
    ReachesWeaken(im.code, s, 1, 0, u);
    BaseKept(u1, u2, fr);
    LeaveUndoesEnter(t.Calls(), FrameInfo(0, fr.locals), [], t.pc + 5, u1.Calls(), After(u2, Ret).Calls());
  }

  lemma {:induction false} BaseKept(t: State, u: State, fr: Frame)
    requires Keeps(t, u, fr)
    ensures Read32(u.mem, t.fp) == Read32(t.mem, t.fp) && Read32(u.mem, t.fp + 4) == Read32(t.mem, t.fp + 4)
  {
    assert forall a | t.fp <= a < t.fp + 8 :: !InSlots(t, fr, a);
  }

  /** A call of a scope method, from the call instruction to the one behind it. */
  lemma {:induction false} SimMethod(im: Image, s: State, t: State, m: ScopeMethod, i: nat, n: nat, rest: Asm,
          end: int, hb: int, fuel: nat) returns (u: State)
    requires At(im, s, 0, t, Ins(Call(MethodLabel(Scope(i))), rest), end) && MethodLoaded(im, m, i, n)
    requires MethodOk(m) && t.sp == MAX_ADDR && t.fp == MAX_ADDR && t.hp == hb && 0 <= hb < W32 && t.dataStart <= hb
    requires t.stack == [] && t.frames == []
    requires IsWord(t.pc + 5)
    ensures if !Fits(m, hb) then Reaches(im.code, s, 0, u) && u.status == Failed(StackOverflow)
            else
              match Exec(fuel, m.body, map[])
              case Next(_) => Reaches(im.code, s, 0, u) && u == t.(pc := t.pc + 5, mem := u.mem)
              case Raised(f) => Reaches(im.code, s, 0, u) && u.status == Failed(f)
              case OutOfFuel => Reaches(im.code, s, fuel, u) && u.status == Running
              case _ => false
  {
    hide Read64, Get, Run, Step, Execute, Reaches, Spans, Loaded, Length, Represented, Keeps, FrameBuilt, CodeStm,
      WellTypedStm, SoundStm, Exec, NeedStm;
    var dirty: set<int> :| MethodFits(m, dirty);
    u := DoCallMethod(im, s, t, m, i, n, rest, end, hb, dirty);
    if Fits(m, hb) {
      var u1 := u;
      var fr := Frame(0, m.locals, dirty);
      var code, last := CodeStm(m.body, n, NoLoop), u.pc + Length(MethodCode(m, n));
      SpansSeq(im, u1.pc, code, Ins(Ret, Done), last);
      var u2 := SimStm(im, s, 0, u1, m.body, n, u1.pc + Length(code), fr, Place(false, false), NoLoop, fuel, map[]);
      NoJump(m.body, fr, Place(false, false), fuel, map[]);
      NoReturnStm(m.body, fr, Place(false, false), fuel, map[]);
      u := u2;
      if Exec(fuel, m.body, map[]).Next? {
        u := DoReturn(im, s, t, u1, u2, fr, last);
      }
    }
  }

  // ---------------------------------------------------------------- the whole program

  /** From the call of method i on. */
  lemma {:induction false} SimFrom(im: Image, s: State, t: State, ms: seq<ScopeMethod>, i: nat, end: int, hb: int,
          fuel: nat) returns (u: State)
    requires ProgramLoaded(im, ms) && ProgramOk(ms) && i <= |ms|
    requires s.sp == MAX_ADDR && s.fp == MAX_ADDR && s.hp == hb && 0 <= hb < W32 && s.dataStart <= hb && s.stack == []
    requires s.frames == []
    requires s.status == Running
    requires Idle(s, t) && At(im, s, 0, t, GlobalCode(i, |ms|), end) && 0 <= t.pc && end < W32
    ensures EndsAs(im, s, 0, fuel, u, RunMethods(fuel, ms[i..], hb))
    decreases |ms| - i
  {
    hide Read64, Get, Run, Step, Execute, Reaches, Loaded, MethodLoaded, Exec, MethodOk;
    if i == |ms| {
      u := DoHalt(im, s, t, end);
    } else {
      var rest := GlobalCode(i + 1, |ms|);
      SpansIns(im, t.pc, Call(MethodLabel(Scope(i))), rest, end);
      u := SimMethod(im, s, t, ms[i], i, CounterAt(ms, i), rest, end, hb, fuel);
      assert ms[i..][0] == ms[i] && ms[i..][1..] == ms[i + 1..];
      if Fits(ms[i], hb) && Exec(fuel, ms[i].body, map[]).Next? {
        var t1 := u;
        u := SimFrom(im, s, t1, ms, i + 1, end, hb, fuel);
      }
    }
  }

  lemma {:induction false} DoHalt(im: Image, s: State, t: State, end: int) returns (u: State)
    requires At(im, s, 0, t, Ins(Halt, Done), end)
    ensures Reaches(im.code, s, 0, u) && u == t.(pc := u.pc, status := Halted)
  {
    hide Run;
    DoIns(im, s, 0, t, Halt, Done, end);
    u := Execute(im.code, After(t, Halt), Halt);
    ReachesWeaken(im.code, s, 1, 0, u);
  }

  /** Running the loaded program for any fuel ends as the source program does. */
  lemma {:induction false} ProgramSimulates(im: Image, mem: Mem, dataStart: int, hb: int, ms: seq<ScopeMethod>,
          fuel: nat) returns (u: State)
    requires ProgramLoaded(im, ms) && ProgramOk(ms) && dataStart <= hb && 0 <= hb < W32
    ensures EndsAs(im, Initial(mem, dataStart, hb), 0, fuel, u, RunMethods(fuel, ms, hb))
  {
    hide Run, Loaded, Length, MethodLoaded, Exec, MethodOk;
    var s := Initial(mem, dataStart, hb);
    ReachesSelf(im.code, s);
    SpansSelf(im, 0, GlobalCode(0, |ms|));
    u := SimFrom(im, s, s, ms, 0, Length(GlobalCode(0, |ms|)), hb, fuel);
    assert ms[0..] == ms;
  }

  ghost predicate Ends(code: Code, s: State, status: Status) {
    exists k: nat :: Run(code, s, k).status == status
  }

  function StatusOf(r: Ending): Status {
    match r
    case Finished => Halted
    case Stopped(f) => Failed(f)
    case Unfinished => Running
  }

  lemma {:induction false} SourceEndsMachineEnds(im: Image, mem: Mem, dataStart: int, hb: int, ms: seq<ScopeMethod>,
          fuel: nat)
    requires ProgramLoaded(im, ms) && ProgramOk(ms) && dataStart <= hb && 0 <= hb < W32
    requires RunMethods(fuel, ms, hb) != Unfinished
    ensures Ends(im.code, Initial(mem, dataStart, hb), StatusOf(RunMethods(fuel, ms, hb)))
  {
    hide RunMethods, Step, ProgramLoaded, ProgramOk, Initial;
    var u := ProgramSimulates(im, mem, dataStart, hb, ms, fuel);
  }

  /** The machine takes at least one step per unit of fuel, so fuel k + 1 decides what step k has reached. */
  lemma {:induction false} MachineEndsSourceEnds(im: Image, mem: Mem, dataStart: int, hb: int, ms: seq<ScopeMethod>,
          k: nat)
    requires ProgramLoaded(im, ms) && ProgramOk(ms) && dataStart <= hb && 0 <= hb < W32
    requires Run(im.code, Initial(mem, dataStart, hb), k).status != Running
    ensures StatusOf(RunMethods(k + 1, ms, hb)) == Run(im.code, Initial(mem, dataStart, hb), k).status
  {
    hide RunMethods, Step, ProgramLoaded, ProgramOk, Initial;
    var s := Initial(mem, dataStart, hb);
    var u := ProgramSimulates(im, mem, dataStart, hb, ms, k + 1);
    var j: nat :| Run(im.code, s, j) == u && (RunMethods(k + 1, ms, hb).Unfinished? ==> j >= k + 1);
    if j >= k {
      StoppedStays(im.code, s, k, j);
    } else {
      StoppedStays(im.code, s, j, k);
    }
  }

  /** No step of the machine crosses a page end or stores into the code, however long it runs. */
  lemma {:induction false} ProgramCalm(im: Image, mem: Mem, dataStart: int, hb: int, ms: seq<ScopeMethod>, k: nat)
    requires ProgramLoaded(im, ms) && ProgramOk(ms) && dataStart <= hb && 0 <= hb < W32
    ensures RunCalm(im.code, Initial(mem, dataStart, hb), k)
  {
    hide RunMethods, Step, ProgramLoaded, ProgramOk, Initial, StepAccesses;
    var s := Initial(mem, dataStart, hb);
    var u := ProgramSimulates(im, mem, dataStart, hb, ms, k);
    var i: nat :| Run(im.code, s, i) == u && (RunMethods(k, ms, hb).Unfinished? ==> i >= k) && RunCalm(im.code, s, i);
    forall j: nat | j < k
      ensures StepCalm(im.code, Run(im.code, s, j))
    {
      if j >= i {
        StoppedStays(im.code, s, i, j);
      }
    }
  }

  /** The source program ends in the given way, for all fuel from some amount on. */
  ghost predicate SourceEnds(ms: seq<ScopeMethod>, hb: int, r: Ending) {
    exists fuel :: RunMethods(fuel, ms, hb) == r
  }

  ghost predicate SourceDiverges(ms: seq<ScopeMethod>, hb: int) {
    forall fuel :: RunMethods(fuel, ms, hb) == Unfinished
  }

  ghost predicate RunsForever(code: Code, s: State) {
    forall k: nat :: Run(code, s, k).status == Running
  }

  /** Compiler correctness in both directions: the machine halts, or stops with a given error, exactly when
      the source program does. */
  lemma {:induction false} ProgramCorrect(im: Image, mem: Mem, dataStart: int, hb: int, ms: seq<ScopeMethod>, r: Ending)
    requires ProgramLoaded(im, ms) && ProgramOk(ms) && dataStart <= hb && 0 <= hb < W32 && r != Unfinished
    ensures Ends(im.code, Initial(mem, dataStart, hb), StatusOf(r)) <==> SourceEnds(ms, hb, r)
  {
    hide Exec, Step, ProgramLoaded, ProgramOk, Initial;
    var s := Initial(mem, dataStart, hb);
    if SourceEnds(ms, hb, r) {
      var fuel :| RunMethods(fuel, ms, hb) == r;
      SourceEndsMachineEnds(im, mem, dataStart, hb, ms, fuel);
    }
    if Ends(im.code, s, StatusOf(r)) {
      var k: nat :| Run(im.code, s, k).status == StatusOf(r);
      MachineEndsSourceEnds(im, mem, dataStart, hb, ms, k);
      assert RunMethods(k + 1, ms, hb) == r;
    }
  }

  /** And it runs forever exactly when the source program has no end. */
  lemma {:induction false} DivergenceCorrect(im: Image, mem: Mem, dataStart: int, hb: int, ms: seq<ScopeMethod>)
    requires ProgramLoaded(im, ms) && ProgramOk(ms) && dataStart <= hb && 0 <= hb < W32
    ensures RunsForever(im.code, Initial(mem, dataStart, hb)) <==> SourceDiverges(ms, hb)
  {
    hide Exec, Step, ProgramLoaded, ProgramOk, Initial;
    var s := Initial(mem, dataStart, hb);
    if !SourceDiverges(ms, hb) {
      var fuel :| RunMethods(fuel, ms, hb) != Unfinished;
      SourceEndsMachineEnds(im, mem, dataStart, hb, ms, fuel);
      var k: nat :| Run(im.code, s, k).status == StatusOf(RunMethods(fuel, ms, hb));
      assert Run(im.code, s, k).status != Running;
    }
    if !RunsForever(im.code, s) {
      var k: nat :| Run(im.code, s, k).status != Running;
      MachineEndsSourceEnds(im, mem, dataStart, hb, ms, k);
    }
  }
}
