/** A program that ends but whose code keeps the VM running forever, because an immediate crosses a page end:

      { if (false) { int x0 = 0; ... int x369 = 0; } while (false) {} }

    The condition of the loop is pushed by the instruction at byte 4092. */
module CutLoop {
  import opened Isa
  import opened Source
  import opened Domain
  import opened FlatMemory
  import opened Frames
  import opened FrameLaws
  import opened Arithmetic
  import opened Machine
  import opened CodeGen
  import opened Encoding
  import opened Assembler
  import opened Accesses
  import opened Fetching
  import opened Loading
  import opened FramePages
  import opened PagedMachine
  import opened Program
  import opened EndToEnd
  import opened CodePages

  const SKIPPED := 370

  const Statements: seq<Stm> := [If(BoolLit(false), Declarations(0, SKIPPED), None), While(BoolLit(false), [])]

  const Cut: seq<ScopeMethod> := [ScopeMethod(Block(Statements), SKIPPED)]

  lemma {:induction false} CutOk()
    ensures ProgramOk(Cut)
  {
    hide Declarations;
    var m := Cut[0];
    var fr := Frame(0, SKIPPED, {});
    DeclarationsNeed(0, SKIPPED);
    assert WellTypedBlock(Declarations(0, SKIPPED), fr, Place(false, false));
    assert SoundBlock(Declarations(0, SKIPPED), fr);
    assert WellTypedStm(Statements[0], fr, Place(false, false)) && WellTypedStm(Statements[1], fr, Place(false, false));
    assert SoundStm(Statements[0], fr) && SoundStm(Statements[1], fr);
    assert Statements[1..] == [Statements[1]] && Statements[1..][1..] == [];
    assert NeedBlock([]) == 0 && NeedStm(Statements[1]) == 1 && NeedBlock(Statements[1..]) == 1;
    assert NeedStm(Statements[0]) <= 1 && NeedBlock(Statements) <= 1;
    assert WellTypedBlock(Statements, fr, Place(false, false)) && SoundBlock(Statements, fr);
    assert MethodFits(m, {});
  }

  /** The program as written ends at once. */
  lemma {:induction false} CutEnds(hb: int)
    requires Fits(Cut[0], hb)
    ensures SourceEnds(Cut, hb, Finished)
  {
    hide Declarations;
    assert Statements[1..] == [Statements[1]] && Statements[1..][1..] == [];
    assert Exec(1, Statements[0], map[]) == Next(map[]);
    assert Exec(1, Statements[1], map[]) == Next(map[]);
    assert ExecBlock(1, Statements[1..], map[]) == Next(map[]);
    assert ExecBlock(1, Statements, map[]) == Next(map[]);
    assert Cut[1..] == [];
    assert RunMethods(1, Cut, hb) == Finished;
  }

  // ---------------------------------------------------------------- its code

  const IfEnd: Label := CodeLabel(IfEndKind, 0)
  const Again: Label := CodeLabel(WhileStartKind, 1)
  const After: Label := CodeLabel(WhileEndKind, 2)

  lemma {:induction false} NoLabels(k: nat, n: nat)
    requires k <= n
    ensures LabelsOfBlock(Declarations(k, n)) == 0
    decreases n - k
  {
    if k < n {
      NoLabels(k + 1, n);
      assert Declarations(k, n)[1..] == Declarations(k + 1, n);
    }
  }

  const Test: Item := Instruction(Push(UI32, 0))

  lemma {:induction false} SkipCode(decls: Asm)
    ensures Flatten(IfTemplate(0, Ins(Push(UI32, 0), Done), decls))
      == [Test, Instruction(Jez(IfEnd))] + Flatten(decls) + [LabelDef(IfEnd)]
  {
    var tail := Seq(decls, Def(IfEnd, Done));
    assert Flatten(Def(IfEnd, Done)) == [LabelDef(IfEnd)];
    assert Flatten(Ins(Jez(IfEnd), tail)) == [Instruction(Jez(IfEnd))] + (Flatten(decls) + [LabelDef(IfEnd)]);
    assert Flatten(Ins(Push(UI32, 0), Done)) == [Test];
  }

  lemma {:induction false} LoopCode()
    ensures Flatten(WhileTemplate(1, Ins(Push(UI32, 0), Done), Done))
      == [LabelDef(Again), Test, Instruction(Jez(After)), Instruction(Jmp(Again)), LabelDef(After)]
  {
    var last := Ins(Jmp(Again), Def(After, Done));
    assert Flatten(Def(After, Done)) == [LabelDef(After)];
    assert Flatten(last) == [Instruction(Jmp(Again)), LabelDef(After)];
    assert Flatten(Seq(Done, last)) == Flatten(last);
    assert Flatten(Ins(Jez(After), Seq(Done, last))) == [Instruction(Jez(After))] + Flatten(last);
    assert Flatten(Ins(Push(UI32, 0), Done)) == [Test];
  }

  /** The code of the block, behind call, halt and the header of the method. */
  lemma {:induction false} CutItems()
    ensures var decls := Flatten(CodeBlock(Declarations(0, SKIPPED), 1, NoLoop));
      && ItemsUpTo(Cut, 1) == [Instruction(Call(MethodLabel(Scope(0)))), Instruction(Halt),
           MethodDef(MethodLabel(Scope(0)), 0, SKIPPED), Test, Instruction(Jez(IfEnd))] + decls
           + [LabelDef(IfEnd), LabelDef(Again), Test, Instruction(Jez(After)), Instruction(Jmp(Again)),
              LabelDef(After), Instruction(Ret)]
  {
    hide Declarations, CodeBlock, CodeStm, ItemsUpTo, IfTemplate, WhileTemplate;
    NoLabels(0, SKIPPED);
    var decls := CodeBlock(Declarations(0, SKIPPED), 1, NoLoop);
    SkipCode(decls);
    LoopCode();
    CutBlockCode();
    CutParts(Flatten(CodeStm(Block(Statements), 0, NoLoop)));
  }

  lemma {:induction false} CutParts(block: seq<Item>)
    requires block == Flatten(CodeStm(Block(Statements), 0, NoLoop))
    ensures ItemsUpTo(Cut, 1) == [Instruction(Call(MethodLabel(Scope(0)))), Instruction(Halt)]
      + ([MethodDef(MethodLabel(Scope(0)), 0, SKIPPED)] + (block + [Instruction(Ret)]))
  {
    hide CodeStm;
    assert GlobalCode(1, 1) == Ins(Halt, Done);
    assert Flatten(GlobalCode(0, 1)) == [Instruction(Call(MethodLabel(Scope(0)))), Instruction(Halt)];
    assert CounterAt(Cut, 0) == 0 && Flatten(Ins(Ret, Done)) == [Instruction(Ret)];
    assert ItemsUpTo(Cut, 1) == ItemsUpTo(Cut, 0) + MethodItems(Cut, 0);
  }

  lemma {:induction false} CutBlockCode()
    ensures var decls := CodeBlock(Declarations(0, SKIPPED), 1, NoLoop);
      Flatten(CodeStm(Block(Statements), 0, NoLoop)) == Flatten(IfTemplate(0, Ins(Push(UI32, 0), Done), decls))
        + Flatten(WhileTemplate(1, Ins(Push(UI32, 0), Done), Done))
  {
    hide Declarations;
    NoLabels(0, SKIPPED);
    var first, second := Statements[0], Statements[1];
    assert Statements[1..] == [second] && [second][1..] == [];
    assert LabelsOfStm(first) == 1;
    assert CodeBlock([], 3, NoLoop) == Done;
    assert CodeBlock([second], 1, NoLoop) == Seq(CodeStm(second, 1, NoLoop), Done) by {
      assert LabelsOfStm(second) == 2;
    }
    assert CodeBlock(Statements, 0, NoLoop) == Seq(CodeStm(first, 0, NoLoop), CodeBlock([second], 1, NoLoop));
    assert CodeStm(second, 1, NoLoop) == WhileTemplate(1, Ins(Push(UI32, 0), Done), Done) by {
      assert CodeBlock([], 3, InLoop(Again, After)) == Done;
    }
  }

  // ---------------------------------------------------------------- where it stands

  /** Statement numbers of the end of the skipped block and of the loop behind it. */
  const END_OF_IF := 5 + 2 * SKIPPED
  const LOOP := END_OF_IF + 1

  predicate CutShape(ss: seq<Statement>) {
    && |ss| == LOOP + 6 && (forall i | 0 <= i < |ss| :: ss[i].Code?)
    && ss[0] == Statement.Code(Instruction(Call(MethodLabel(Scope(0)))))
    && ss[1] == Statement.Code(Instruction(Halt))
    && ss[2] == Statement.Code(MethodDef(MethodLabel(Scope(0)), 0, SKIPPED))
    && ss[3] == Statement.Code(Test) && ss[4] == Statement.Code(Instruction(Jez(IfEnd)))
    && (forall i | 0 <= i < SKIPPED :: ss[5 + 2 * i] == Statement.Code(Instruction(Push(I32, 0)))
          && ss[5 + 2 * i + 1] == Statement.Code(Instruction(StoreL(-1 - i))))
    && ss[END_OF_IF] == Statement.Code(LabelDef(IfEnd)) && ss[LOOP] == Statement.Code(LabelDef(Again))
    && ss[LOOP + 1] == Statement.Code(Test) && ss[LOOP + 2] == Statement.Code(Instruction(Jez(After)))
    && ss[LOOP + 3] == Statement.Code(Instruction(Jmp(Again))) && ss[LOOP + 4] == Statement.Code(LabelDef(After))
    && ss[LOOP + 5] == Statement.Code(Instruction(Ret))
  }

  lemma {:induction false} CutStatements()
    ensures CutShape(ProgramStatements(Cut))
  {
    hide Declarations, CodeBlock, ItemsUpTo;
    CutItems();
    DeclarationCode(0, SKIPPED, 1);
    var decls := Flatten(CodeBlock(Declarations(0, SKIPPED), 1, NoLoop));
    var items := ItemsUpTo(Cut, 1);
    forall i | 0 <= i < SKIPPED
      ensures items[5 + 2 * i] == decls[2 * i] && items[5 + 2 * i + 1] == decls[2 * i + 1]
    {
    }
  }

  lemma {:induction false} FrontOffsets(ss: seq<Statement>)
    requires CutShape(ss)
    ensures CodeLen(ss[..0]) == 0 && CodeLen(ss[..2]) == 6 && CodeLen(ss[..3]) == 11 && CodeLen(ss[..4]) == 17
    ensures CodeLen(ss[..5]) == 22
  {
    hide CodeLen;
    EmptyCode(ss);
    OffsetOf(ss, 0);
    OffsetOf(ss, 1);
    OffsetOf(ss, 2);
    OffsetOf(ss, 3);
    OffsetOf(ss, 4);
  }

  lemma {:induction false} SkippedOffset(ss: seq<Statement>, k: nat)
    requires CutShape(ss) && k <= SKIPPED
    ensures CodeLen(ss[..5 + 2 * k]) == 22 + 11 * k
    decreases k
  {
    hide CodeLen;
    if k == 0 {
      FrontOffsets(ss);
    } else {
      SkippedOffset(ss, k - 1);
      OffsetOf(ss, 5 + 2 * (k - 1));
      OffsetOf(ss, 5 + 2 * (k - 1) + 1);
    }
  }

  /** The loop starts at 4092, with the push that is cut in two; the whole code has 4109 bytes. */
  lemma {:induction false} LoopOffsets(ss: seq<Statement>)
    requires CutShape(ss)
    ensures CodeLen(ss[..END_OF_IF]) == 4092 && CodeLen(ss[..LOOP]) == 4092 && CodeLen(ss[..LOOP + 1]) == 4092
    ensures CodeLen(ss[..LOOP + 2]) == 4098 && CodeLen(ss[..LOOP + 3]) == 4103 && CodeLen(ss) == 4109
    ensures CodeLen(ss[..LOOP + 4]) == 4108
  {
    hide CodeLen;
    SkippedOffset(ss, SKIPPED);
    StepOver(ss, END_OF_IF, LabelDef(IfEnd));
    StepOver(ss, LOOP, LabelDef(Again));
    StepOver(ss, LOOP + 1, Test);
    StepOver(ss, LOOP + 2, Instruction(Jez(After)));
    StepOver(ss, LOOP + 3, Instruction(Jmp(Again)));
    StepOver(ss, LOOP + 4, LabelDef(After));
    StepOver(ss, LOOP + 5, Instruction(Ret));
    WholeList(ss);
  }

  lemma {:induction false} StepOver(ss: seq<Statement>, k: nat, it: Item)
    requires CutShape(ss) && END_OF_IF <= k < LOOP + 6 && it == ss[k].item
    ensures CodeLen(ss[..k + 1]) == CodeLen(ss[..k]) + ItemSize(it)
  {
    hide CodeLen;
    OffsetOf(ss, k);
  }

  lemma {:induction false} WholeList(ss: seq<Statement>)
    requires CutShape(ss)
    ensures ss[..LOOP + 6] == ss
  {
  }

  // ---------------------------------------------------------------- what is fetched

  /** What the VM fetches from the image of the program at the addresses it visits. */
  ghost predicate CutImage(m: Mem) {
    var dataStart := 4109;
    && FetchInstruction(m, dataStart, 0) == Some(Call(6)) && FetchHeader(m, dataStart, 6) == Some(Header(0, SKIPPED))
    && FetchInstruction(m, dataStart, 11) == Some(Push(UI32, 0))
    && FetchInstruction(m, dataStart, 17) == Some(Jez(4092))
    && FetchInstruction(m, dataStart, 4092) == Some(Push(UI32, 0x0614_0000))
    && FetchInstruction(m, dataStart, 4098) == Some(Jez(4108))
    && FetchInstruction(m, dataStart, 4103) == Some(Jmp(4092))
  }

  lemma {:induction false} CutLabels(ss: seq<Statement>)
    requires CutShape(ss) && NoRedefinition(ss)
    ensures IfEnd in Table(ss) && Again in Table(ss) && After in Table(ss) && MethodLabel(Scope(0)) in Table(ss)
    ensures Table(ss)[IfEnd] == 4092 && Table(ss)[Again] == 4092 && Table(ss)[After] == 4108
    ensures Table(ss)[MethodLabel(Scope(0))] == 6
  {
    hide CodeLen, Table, NoRedefinition;
    FrontOffsets(ss);
    LoopOffsets(ss);
    TableEntry(ss, 2);
    TableEntry(ss, END_OF_IF);
    TableEntry(ss, LOOP);
    TableEntry(ss, LOOP + 4);
  }

  /** A fetch that stays in its page. */
  lemma {:induction false} PlainFetch(ss: seq<Statement>, m: Mem, k: nat, at: nat, i: Instr<Label>)
    requires AllKnown(ss, Table(ss)) && (forall j | 0 <= j < |ss| :: ss[j].Code?) && k < |ss|
    requires ss[k] == Statement.Code(Instruction(i)) && CodeLen(ss[..k]) == at && FetchInPage(at, i)
    requires |Body(ss, Table(ss))| >= CodeLen(ss) && Stored(m, Body(ss, Table(ss))[..CodeLen(ss)])
    ensures LabelsKnown(i, Table(ss)) && FetchInstruction(m, CodeLen(ss), at) == Some(Resolve(i, Table(ss)))
  {
    hide CodeLen, Table, Body, FetchInstruction, Resolve, SameHere, Stored, FetchInPage, LabelsKnown;
    FetchOnPages(ss, Table(ss), m, k);
  }

  lemma {:induction false} CutFetches(ss: seq<Statement>, m: Mem)
    requires CutShape(ss) && NoRedefinition(ss) && AllKnown(ss, Table(ss)) && CodeLen(ss) == 4109
    requires |Body(ss, Table(ss))| >= CodeLen(ss) && Stored(m, Body(ss, Table(ss))[..CodeLen(ss)])
    ensures CutImage(m)
  {
    hide CodeLen, Table, Body, NoRedefinition, FetchInstruction, FetchHeader, Stored, SameHere;
    LoopOffsets(ss);
    CutLabels(ss);
    FrontFetches(ss, m);
    PlainFetch(ss, m, LOOP + 2, 4098, Jez(After));
    PlainFetch(ss, m, LOOP + 3, 4103, Jmp(Again));
    FirstBytes(ss);
    ZeroPushAt(ss, LOOP + 1, UI32);
    CutStored(ss, m);
  }

  lemma {:induction false} FrontFetches(ss: seq<Statement>, m: Mem)
    requires CutShape(ss) && NoRedefinition(ss) && AllKnown(ss, Table(ss)) && CodeLen(ss) == 4109
    requires |Body(ss, Table(ss))| >= CodeLen(ss) && Stored(m, Body(ss, Table(ss))[..CodeLen(ss)])
    ensures FetchInstruction(m, 4109, 0) == Some(Call(6)) && FetchHeader(m, 4109, 6) == Some(Header(0, SKIPPED))
    ensures FetchInstruction(m, 4109, 11) == Some(Push(UI32, 0)) && FetchInstruction(m, 4109, 17) == Some(Jez(4092))
  {
    hide CodeLen, Table, Body, NoRedefinition, FetchInstruction, FetchHeader, Stored, SameHere;
    FrontOffsets(ss);
    CutLabels(ss);
    PlainFetch(ss, m, 0, 0, Call(MethodLabel(Scope(0))));
    PlainFetch(ss, m, 3, 11, Push(UI32, 0));
    PlainFetch(ss, m, 4, 17, Jez(IfEnd));
    FetchOnPages(ss, Table(ss), m, 2);
  }

  lemma {:induction false} CutStored(ss: seq<Statement>, m: Mem)
    requires AllKnown(ss, Table(ss)) && CodeLen(ss) == 4109 && |Body(ss, Table(ss))| >= CodeLen(ss)
    requires Stored(m, Body(ss, Table(ss))[..CodeLen(ss)])
    requires var b := Body(ss, Table(ss));
      b[4092..4098] == [2, TyByte(UI32), 0, 0, 0, 0] && b[0] == 0x14 && b[1] == 0x06
    ensures FetchInstruction(m, 4109, 4092) == Some(Push(UI32, 0x0614_0000))
  {
    hide CodeLen, Table, Body, FetchInstruction, Get, TyByte;
    var b := Body(ss, Table(ss));
    var code := b[..4109];
    assert code[4092..4098] == b[4092..4098];
    CutPush(m, 4109, code, UI32);
  }

  // ---------------------------------------------------------------- the run

  /** The VM at the loop, with the code in memory. */
  ghost predicate AtLoop(s: State) {
    CutImage(s.mem) && s.dataStart == 4109 && s.pc == 4092 && s.stack == [] && s.status == Running
  }

  lemma {:induction false} FewSteps(s: State, s1: State, s2: State)
    requires s1 == PagedStep(s) && s2 == PagedStep(s1)
    ensures PagedSteps(s, 1) == s1 && PagedSteps(s, 2) == s2 && PagedSteps(s, 3) == PagedStep(s2)
  {
    hide PagedStep;
    assert PagedSteps(s, 1) == PagedSteps(s1, 0);
    assert PagedSteps(s, 2) == PagedSteps(s1, 1) == PagedSteps(s2, 0);
    assert PagedSteps(s2, 1) == PagedSteps(PagedStep(s2), 0);
    assert PagedSteps(s, 3) == PagedSteps(s1, 2) == PagedSteps(s2, 1);
  }

  lemma {:induction false} PushStep(s: State)
    requires AtLoop(s)
    ensures PagedStep(s) == s.(pc := 4098, stack := [Value.Value(UI32, 0x0614_0000)])
  {
    hide FetchInstruction, FetchHeader;
  }

  lemma {:induction false} TestStep(s: State)
    requires AtLoop(s.(pc := 4092, stack := [])) && s.pc == 4098 && s.stack == [Value.Value(UI32, 0x0614_0000)]
    ensures PagedStep(s) == s.(pc := 4103, stack := [])
  {
    hide FetchInstruction, FetchHeader;
    assert Drop(s, 1) == [];
  }

  lemma {:induction false} JumpStep(s: State)
    requires AtLoop(s.(pc := 4092)) && s.pc == 4103
    ensures PagedStep(s) == s.(pc := 4092)
  {
    hide FetchInstruction, FetchHeader;
  }

  /** One turn: the push of a number that is not zero, no branch, and the jump back. */
  lemma {:induction false} OneTurn(s: State)
    requires AtLoop(s)
    ensures PagedSteps(s, 3) == s && PagedSteps(s, 1).status == PagedSteps(s, 2).status == Running
  {
    hide PagedStep, PagedSteps, CutImage;
    var s1 := s.(pc := 4098, stack := [Value.Value(UI32, 0x0614_0000)]);
    var s2 := s.(pc := 4103);
    PushStep(s);
    TestStep(s1);
    JumpStep(s2);
    FewSteps(s, s1, s2);
  }

  lemma {:induction false} PagedPlus(s: State, j: nat, k: nat)
    ensures PagedSteps(PagedSteps(s, j), k) == PagedSteps(s, j + k)
    decreases j
  {
    hide PagedStep;
    if j > 0 {
      PagedPlus(PagedStep(s), j - 1, k);
    }
  }

  lemma {:induction false} Turns(s: State, k: nat)
    requires AtLoop(s)
    ensures PagedSteps(s, k).status == Running
    decreases k
  {
    hide PagedStep, CutImage;
    OneTurn(s);
    if k >= 3 {
      PagedPlus(s, 3, k - 3);
      Turns(s, k - 3);
    } else {
      assert k == 0 || k == 1 || k == 2;
    }
  }

  /** The call of the method: its frame lies far above the code. */
  lemma {:induction false} CallStep(s: State) returns (u: State)
    requires CutImage(s.mem) && s == Initial(s.mem, 4109, 4109)
    ensures u == PagedStep(s)
    ensures u.pc == 11 && u.stack == [] && u.status == Running && u.dataStart == 4109
    ensures forall a | 0 <= a < 4109 :: Get(u.mem, a) == Get(s.mem, a)
  {
    hide FetchInstruction, FetchHeader, Get, Read32, Read64, CallWrites, Enter;
    u := PagedStep(s);
    var t := s.(pc := 5);
    var info := FrameInfo(0, SKIPPED);
    assert PopArgs(t, 0) == [];
    EnterRefusedExact(t.Calls(), t.hp, info, [], 5);
    EnterBuilds(t.Calls(), t.hp, info, [], 5);
    LargeFrameUndefined(t.Calls(), t.hp, SKIPPED, 5);
    assert Drop(t, 0) == [];
  }

  lemma {:induction false} FirstTest(s: State)
    requires CutImage(s.mem) && s.dataStart == 4109 && s.pc == 11 && s.stack == [] && s.status == Running
    ensures PagedStep(s) == s.(pc := 17, stack := [Value.Value(UI32, 0)])
  {
    hide FetchInstruction, FetchHeader;
  }

  lemma {:induction false} SkipJump(s: State)
    requires CutImage(s.mem) && s.dataStart == 4109 && s.pc == 17 && s.status == Running
    requires s.stack == [Value.Value(UI32, 0)]
    ensures PagedStep(s) == s.(pc := 4092, stack := [])
  {
    hide FetchInstruction, FetchHeader;
    assert Drop(s, 1) == [];
  }

  /** Into the method, and past the skipped declarations. */
  lemma {:induction false} SkipSteps(s: State)
    requires CutImage(s.mem) && s.dataStart == 4109 && s.pc == 11 && s.stack == [] && s.status == Running
    ensures AtLoop(PagedSteps(s, 2)) && PagedSteps(s, 1).status == Running
  {
    hide PagedStep, PagedSteps, CutImage;
    FirstTest(s);
    SkipJump(PagedStep(s));
    FewSteps(s, PagedStep(s), PagedStep(PagedStep(s)));
  }

  lemma {:induction false} RunsOn(ss: seq<Statement>, s: State, k: nat)
    requires CutShape(ss) && NoRedefinition(ss) && AllKnown(ss, Table(ss)) && CodeLen(ss) == 4109
    requires |Body(ss, Table(ss))| >= CodeLen(ss) && Stored(s.mem, Body(ss, Table(ss))[..CodeLen(ss)])
    requires s == Initial(s.mem, 4109, 4109)
    ensures PagedSteps(s, k).status == Running
  {
    hide PagedStep, CutImage, CutShape, CodeLen, Table, Body, NoRedefinition, AllKnown, Initial, Get;
    CutFetches(ss, s.mem);
    var u := CallStep(s);
    CutFetches(ss, u.mem);
    SkipSteps(u);
    assert PagedSteps(s, 1) == PagedSteps(u, 0) by { assert PagedSteps(s, 1) == PagedSteps(PagedStep(s), 0); }
    PagedPlus(s, 1, 1);
    PagedPlus(s, 1, 2);
    if k >= 3 {
      PagedPlus(s, 3, k - 3);
      Turns(PagedSteps(u, 2), k - 3);
    } else if k == 0 {
      StartsRunning(s);
    } else {
      assert k == 1 || k == 2;
    }
  }

  lemma {:induction false} StartsRunning(s: State)
    requires s == Initial(s.mem, 4109, 4109)
    ensures s.status == Running && PagedSteps(s, 0).status == Running
  {
  }

  lemma {:induction false} StartIs(l: Loading.Loaded)
    ensures StartOf(l) == Initial(l.mem, l.dataStart, l.hb) && StartOf(l).mem == l.mem
  {
  }

  lemma {:induction false} CutTest(ss: seq<Statement>)
    requires CutShape(ss) && CodeLen(ss[..LOOP + 1]) == 4092
    ensures !CodeInPages(ss)
  {
    hide CodeLen;
    assert !StatementInPages(CodeLen(ss[..LOOP + 1]), ss[LOOP + 1]);
  }

  /** Its bytes load, and memory holds its code. */
  lemma {:induction false} CutLoads(ss: seq<Statement>)
    requires ss == ProgramStatements(Cut)
    ensures CutShape(ss) && NoRedefinition(ss) && AllKnown(ss, Table(ss)) && CodeLen(ss) == 4109
    ensures |Body(ss, Table(ss))| >= CodeLen(ss) && ReadBytecode(ProgramBytes(Cut)).Some?
    ensures var l := ReadBytecode(ProgramBytes(Cut)).value;
      l.dataStart == l.hb == 4109 && Stored(l.mem, Body(ss, Table(ss))[..CodeLen(ss)])
  {
    hide ProgramStatements, Table, CodeLen, HeaderBytes, ReadBytecode, NoRedefinition, Refs, CutShape, Body;
    CutStatements();
    LoopOffsets(ss);
    ProgramAccepted(Cut);
    RefsKnown(ss, Table(ss));
    OnlyCode(ss);
    LoadAssembled(ss, Table(ss));
    BodyLength(ss, Table(ss));
  }

  lemma {:induction false} CutRunsForever(ss: seq<Statement>, l: Loading.Loaded)
    requires CutShape(ss) && NoRedefinition(ss) && AllKnown(ss, Table(ss)) && CodeLen(ss) == 4109
    requires |Body(ss, Table(ss))| >= CodeLen(ss) && Stored(l.mem, Body(ss, Table(ss))[..CodeLen(ss)])
    requires l.dataStart == l.hb == 4109
    ensures PagedRunsForever(StartOf(l))
  {
    hide Table, CodeLen, NoRedefinition, CutShape, Initial, Body, PagedSteps, Stored, AllKnown;
    StartIs(l);
    forall k: nat
      ensures PagedSteps(StartOf(l), k).status == Running
    {
      RunsOn(ss, StartOf(l), k);
    }
  }

  /** The program is accepted, sound and small enough for its frame, assembles, loads, and ends; but the VM runs
      its bytes forever. What it lacks is that no immediate of its code crosses a page end. */
  lemma {:induction false} CutLoopExample()
    ensures ProgramOk(Cut) && !CodeInPages(ProgramStatements(Cut))
    ensures AllKnown(ProgramStatements(Cut), Table(ProgramStatements(Cut))) && ReadBytecode(ProgramBytes(Cut)).Some?
    ensures var l := ReadBytecode(ProgramBytes(Cut)).value;
      SourceEnds(Cut, l.hb, Finished) && PagedRunsForever(StartOf(l))
  {
    hide ProgramStatements, Table, CodeLen, ReadBytecode, NoRedefinition, ProgramOk, CutShape, SourceEnds, Initial,
      Body, PagedRunsForever, CodeInPages, ProgramBytes, Stored, StartOf;
    var ss := ProgramStatements(Cut);
    CutOk();
    CutLoads(ss);
    LoopOffsets(ss);
    CutTest(ss);
    var l := ReadBytecode(ProgramBytes(Cut)).value;
    CutEnds(l.hb);
    CutRunsForever(ss, l);
  }
}
