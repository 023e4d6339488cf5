/** A program whose code crosses a page end: 372 declarations in one block, the last of which the VM fetches
    with two bytes from the start of the code. */
module CodePages {
  import opened Isa
  import opened Source
  import opened Domain
  import opened FlatMemory
  import opened CodeGen
  import opened Encoding
  import opened Assembler
  import opened Pages
  import opened Fetching
  import opened Loading
  import opened Program
  import opened EndToEnd

  /** `int x0 = 0; ... int x371 = 0;` */
  function Declaration(k: nat): Stm {
    VarDecl(-1 - k, TInt, Some(IntLit(0)))
  }

  function Declarations(k: nat, n: nat): (ss: seq<Stm>)
    requires k <= n
    ensures |ss| == n - k && forall i | 0 <= i < n - k :: ss[i] == Declaration(k + i)
    decreases n - k
  {
    if k == n then [] else [Declaration(k)] + Declarations(k + 1, n)
  }

  const COUNT := 372

  const LongBlock: seq<ScopeMethod> := [ScopeMethod(Block(Declarations(0, COUNT)), COUNT)]

  lemma {:induction false} DeclarationsNeed(k: nat, n: nat)
    requires k <= n
    ensures NeedBlock(Declarations(k, n)) <= 1
    decreases n - k
  {
    if k < n {
      DeclarationsNeed(k + 1, n);
      assert Declarations(k, n)[1..] == Declarations(k + 1, n);
    }
  }

  lemma {:induction false} LongBlockOk()
    ensures ProgramOk(LongBlock)
  {
    hide Declarations;
    var m := LongBlock[0];
    var fr := Frame(0, COUNT, {});
    DeclarationsNeed(0, COUNT);
    assert WellTypedBlock(Declarations(0, COUNT), fr, Place(false, false));
    assert SoundBlock(Declarations(0, COUNT), fr);
    assert NeedStm(m.body) == NeedBlock(Declarations(0, COUNT));
    assert MethodFits(m, {});
  }

  // ---------------------------------------------------------------- where its statements stand

  lemma {:induction false} OneDeclaration(k: nat, c: nat)
    ensures Flatten(CodeStm(Declaration(k), c, NoLoop)) == [Instruction(Push(I32, 0)), Instruction(StoreL(-1 - k))]
  {
    var store := Ins(StoreL(-1 - k), Done);
    assert CodeStm(Declaration(k), c, NoLoop) == Seq(Ins(Push(I32, 0), Done), store);
    assert Flatten(store) == [Instruction(StoreL(-1 - k))];
    assert Flatten(Ins(Push(I32, 0), Done)) == [Instruction(Push(I32, 0))];
  }

  /** Each declaration is a push and a storeL: eleven bytes. */
  lemma {:induction false} DeclarationCode(k: nat, n: nat, c: nat)
    requires k <= n
    ensures var items := Flatten(CodeBlock(Declarations(k, n), c, NoLoop));
      |items| == 2 * (n - k) && forall i | 0 <= i < n - k :: items[2 * i] == Instruction(Push(I32, 0))
                                   && items[2 * i + 1] == Instruction(StoreL(-1 - (k + i)))
    decreases n - k
  {
    hide Declarations;
    if k < n {
      var ss := Declarations(k, n);
      DeclarationCode(k + 1, n, c);
      assert ss[1..] == Declarations(k + 1, n);
      assert LabelsOfStm(ss[0]) == 0;
      var front, rest := Flatten(CodeStm(ss[0], c, NoLoop)), Flatten(CodeBlock(ss[1..], c, NoLoop));
      OneDeclaration(k, c);
      var items := Flatten(CodeBlock(ss, c, NoLoop));
      assert items == front + rest;
      forall i | 0 <= i < n - k
        ensures items[2 * i] == Instruction(Push(I32, 0)) && items[2 * i + 1] == Instruction(StoreL(-1 - (k + i)))
      {
        if i > 0 {
          assert items[2 * i] == rest[2 * (i - 1)] && items[2 * i + 1] == rest[2 * (i - 1) + 1];
        }
      }
    }
  }

  /** call, halt and the method header, then the declarations. */
  predicate LongShape(ss: seq<Statement>) {
    && |ss| >= 3 + 2 * COUNT
    && ss[0] == Statement.Code(Instruction(Call(MethodLabel(Scope(0)))))
    && ss[1] == Statement.Code(Instruction(Halt))
    && ss[2] == Statement.Code(MethodDef(MethodLabel(Scope(0)), 0, COUNT))
    && forall i | 0 <= i < COUNT :: ss[3 + 2 * i] == Statement.Code(Instruction(Push(I32, 0)))
         && ss[3 + 2 * i + 1] == Statement.Code(Instruction(StoreL(-1 - i)))
  }

  lemma {:induction false} LongBlockItems()
    ensures LongShape(ProgramStatements(LongBlock))
  {
    hide Declarations, CodeBlock;
    DeclarationCode(0, COUNT, 0);
    var block := Flatten(CodeBlock(Declarations(0, COUNT), 0, NoLoop));
    var front := [Instruction(Call(MethodLabel(Scope(0)))), Instruction(Halt)];
    assert GlobalCode(1, 1) == Ins(Halt, Done);
    assert Flatten(GlobalCode(0, 1)) == front;
    assert CodeStm(LongBlock[0].body, 0, NoLoop) == CodeBlock(Declarations(0, COUNT), 0, NoLoop);
    assert CounterAt(LongBlock, 0) == 0 && Flatten(Ins(Ret, Done)) == [Instruction(Ret)];
    var scope := [MethodDef(MethodLabel(Scope(0)), 0, COUNT)] + (block + [Instruction(Ret)]);
    assert MethodItems(LongBlock, 0) == scope;
    assert ItemsUpTo(LongBlock, 0) == front;
    assert ItemsUpTo(LongBlock, 1) == front + scope;
    var items := ItemsUpTo(LongBlock, 1);
    forall i | 0 <= i < COUNT
      ensures items[3 + 2 * i] == block[2 * i] && items[3 + 2 * i + 1] == block[2 * i + 1]
    {
    }
  }

  lemma {:induction false} OffsetOf(ss: seq<Statement>, k: nat)
    requires k < |ss| && ss[k].Code?
    ensures CodeLen(ss[..k + 1]) == CodeLen(ss[..k]) + ItemSize(ss[k].item)
  {
    assert ss[..k + 1][..k] == ss[..k];
  }

  lemma {:induction false} DeclarationOffset(ss: seq<Statement>, k: nat)
    requires LongShape(ss) && k <= COUNT
    ensures CodeLen(ss[..3 + 2 * k]) == 11 + 11 * k
    decreases k
  {
    hide CodeLen;
    if k == 0 {
      EmptyCode(ss);
      OffsetOf(ss, 0);
      OffsetOf(ss, 1);
      OffsetOf(ss, 2);
    } else {
      DeclarationOffset(ss, k - 1);
      OffsetOf(ss, 3 + 2 * (k - 1));
      OffsetOf(ss, 3 + 2 * (k - 1) + 1);
    }
  }

  lemma {:induction false} EmptyCode(ss: seq<Statement>)
    ensures CodeLen(ss[..0]) == 0
  {
  }

  // ---------------------------------------------------------------- what the VM fetches

  /** Code that begins with a call of the method at address 6 begins with the bytes 0x14 and 0x06. */
  lemma {:induction false} FirstBytes(ss: seq<Statement>)
    requires NoRedefinition(ss) && AllKnown(ss, Table(ss)) && BeginsWithCall(ss)
    ensures |Body(ss, Table(ss))| >= 2 && Body(ss, Table(ss))[0] == 0x14 && Body(ss, Table(ss))[1] == 0x06
    ensures Table(ss).Keys >= {MethodLabel(Scope(0))} && Table(ss)[MethodLabel(Scope(0))] == 6
  {
    hide CodeLen, Table, Body, NoRedefinition, LittleEndian;
    EmptyCode(ss);
    OffsetOf(ss, 0);
    OffsetOf(ss, 1);
    TableEntry(ss, 2);
    EmptyBody(ss);
    BodyAt(ss, Table(ss), 0);
    var body := Body(ss, Table(ss));
    var e := EncodeStatement(ss[0], Table(ss));
    assert e == [0x14] + LittleEndian(6, 4);
    LowByte(6);
    assert body[0] == body[0..5][0] && body[1] == body[0..5][1];
  }

  predicate BeginsWithCall(ss: seq<Statement>) {
    && |ss| >= 3 && ss[0] == Statement.Code(Instruction(Call(MethodLabel(Scope(0)))))
    && ss[1] == Statement.Code(Instruction(Halt))
    && ss[2].Code? && ss[2].item.MethodDef? && ss[2].item.l == MethodLabel(Scope(0))
  }

  lemma {:induction false} LowByte(v: int)
    ensures LittleEndian(v, 4)[0] == v % 256
  {
  }

  lemma {:induction false} EmptyBody(ss: seq<Statement>)
    requires AllKnown(ss, Table(ss))
    ensures |Body(ss[..0], Table(ss))| == 0
  {
  }

  /** A push of zero at 4092 is encoded as 2, its type, and four zeroes. */
  lemma {:induction false} ZeroPushAt(ss: seq<Statement>, k: nat, ty: Ty)
    requires AllKnown(ss, Table(ss)) && (forall i | 0 <= i < |ss| :: ss[i].Code?) && !IsWide(ty)
    requires k < |ss| && ss[k] == Statement.Code(Instruction(Push(ty, 0))) && CodeLen(ss[..k]) == 4092
    ensures 4098 <= CodeLen(ss) <= |Body(ss, Table(ss))|
    ensures Body(ss, Table(ss))[4092..4098] == [2, TyByte(ty), 0, 0, 0, 0]
  {
    hide CodeLen, Table, Body, LittleEndian, TyByte;
    CodeLenUpTo(ss, k);
    OnlyCode(ss[..k]);
    OnlyCode(ss);
    BodyLength(ss[..k], Table(ss));
    BodyLength(ss, Table(ss));
    BodyAt(ss, Table(ss), k);
    ZeroPush(Table(ss), ty);
  }

  lemma {:induction false} ZeroPush(labels: Labels, ty: Ty)
    requires !IsWide(ty)
    ensures EncodeStatement(Statement.Code(Instruction(Push(ty, 0))), labels) == [2, TyByte(ty), 0, 0, 0, 0]
  {
    assert LittleEndian(0, 4) == [0, 0, 0, 0];
  }

  /** Those six bytes in memory, the last two of them on the second page, and 0x14, 0x06 at the start of the
      first: the immediate is read as 0x0614_0000. */
  lemma {:induction false} CutPush(m: Mem, dataStart: int, body: Bytes, ty: Ty)
    requires Stored(m, body) && 4098 <= dataStart && 4098 <= |body| && !IsWide(ty)
    requires body[4092..4098] == [2, TyByte(ty), 0, 0, 0, 0] && body[0] == 0x14 && body[1] == 0x06
    ensures FetchInstruction(m, dataStart, 4092) == Some(Push(ty, 0x0614_0000))
  {
    hide Get, Radix, TyByte, TyOf, Wrapped;
    var six := body[4092..4098];
    assert body[4092] == six[0] && body[4093] == six[1] && body[4094] == six[2] && body[4095] == six[3];
    TyRoundTrip(ty);
    CutRead(m);
  }

  lemma {:induction false} CutRead(m: Mem)
    requires Get(m, 4094) == Get(m, 4095) == 0 && Get(m, 0) == 0x14 && Get(m, 1) == 0x06
    ensures PagedRead(m, 4094, 4) == 0x0614_0000
  {
    hide Get, Radix;
    Radixes();
    assert Wrapped(4094, 0) == 4094 && Wrapped(4094, 1) == 4095 && Wrapped(4094, 2) == 0 && Wrapped(4094, 3) == 1;
    assert PagedRead(m, 4094, 1) == 0;
    assert PagedRead(m, 4094, 2) == 0;
    assert PagedRead(m, 4094, 3) == 0x14_0000;
  }

  /** The block is well typed, sound and small enough for its frame, assembles and loads, and its last
      declaration is at byte 4092 of the code as `push i32 #0`; but the VM fetches `push i32 #101974016` there. */
  lemma {:induction false} LongBlockExample()
    ensures ProgramOk(LongBlock)
    ensures AllKnown(ProgramStatements(LongBlock), Table(ProgramStatements(LongBlock)))
    ensures ReadBytecode(ProgramBytes(LongBlock)).Some?
    ensures var l := ReadBytecode(ProgramBytes(LongBlock)).value;
      && Decode(l.code, 4092) == Some(Push(I32, 0))
      && FetchInstruction(l.mem, l.dataStart, 4092) == Some(Push(I32, 0x0614_0000))
  {
    hide CodeLen, ProgramStatements, Table, Body, AllKnown, HeaderBytes, ReadBytecode, NoRedefinition, Refs, ProgramOk,
      FetchInstruction, Decode, Get, TyByte;
    var ss := ProgramStatements(LongBlock);
    LongBlockOk();
    ProgramAccepted(LongBlock);
    RefsKnown(ss, Table(ss));
    OnlyCode(ss);
    LongBlockShort();
    LoadAssembled(ss, Table(ss));
    var l := ReadBytecode(ProgramBytes(LongBlock)).value;
    var body := Body(ss, Table(ss));
    LongBlockItems();
    DeclarationOffset(ss, 371);
    FirstBytes(ss);
    BodyLength(ss, Table(ss));
    ZeroPushAt(ss, 3 + 2 * 371, I32);
    CutPush(l.mem, l.dataStart, body, I32);
    assert l.code[4092..4098] == body[4092..4098];
    WholePush(l.code, 4092);
  }

  lemma {:induction false} WholePush(b: Bytes, at: nat)
    requires at + 6 <= |b| && b[at..at + 6] == [2, TyByte(I32), 0, 0, 0, 0]
    ensures Decode(b, at) == Some(Push(I32, 0))
  {
    var i: Instr<Label> := Push(I32, 0);
    ZeroPush(map[], I32);
    DecodeEncode(i, map[], b, at);
  }

  /** Ret follows the declarations; nothing else does. */
  lemma {:induction false} LongBlockShort()
    ensures CodeLen(ProgramStatements(LongBlock)) == 4104
  {
    hide CodeLen, ProgramStatements, ItemsUpTo, Declarations;
    var ss := ProgramStatements(LongBlock);
    LongBlockItems();
    DeclarationOffset(ss, COUNT);
    LongBlockLast();
    OffsetOf(ss, 3 + 2 * COUNT);
    assert ss[..3 + 2 * COUNT + 1] == ss;
  }

  lemma {:induction false} LongBlockLast()
    ensures var ss := ProgramStatements(LongBlock);
      |ss| == 4 + 2 * COUNT && ss[3 + 2 * COUNT] == Statement.Code(Instruction(Ret))
  {
    hide Declarations, CodeBlock;
    DeclarationCode(0, COUNT, 0);
    var block := Flatten(CodeBlock(Declarations(0, COUNT), 0, NoLoop));
    assert GlobalCode(1, 1) == Ins(Halt, Done);
    assert |Flatten(GlobalCode(0, 1))| == 2;
    assert CodeStm(LongBlock[0].body, 0, NoLoop) == CodeBlock(Declarations(0, COUNT), 0, NoLoop);
    assert CounterAt(LongBlock, 0) == 0 && Flatten(Ins(Ret, Done)) == [Instruction(Ret)];
    assert MethodItems(LongBlock, 0) == [MethodDef(MethodLabel(Scope(0)), 0, COUNT)] + (block + [Instruction(Ret)]);
    assert ItemsUpTo(LongBlock, 1) == ItemsUpTo(LongBlock, 0) + MethodItems(LongBlock, 0);
  }
}
