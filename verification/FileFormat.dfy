/** The numbers of the file format: opcodes, type bytes and error bytes in the order of the instruction set, and the
    complete example of the format's description, byte by byte. */
module FileFormat {
  import opened Isa
  import opened Source
  import opened CodeGen
  import opened Encoding
  import opened Assembler
  import opened Loading

  // The groups of the instruction set, in the order in which it lists them. Operands do not matter.
  const GENERAL: seq<Instr<int>> := [Nop, Halt]
  const OPERAND_STACK: seq<Instr<int>> := [Push(I32, 0), Pop, Dup(0), Swap, RotD(3), RotU(3)]
  const MEMORY: seq<Instr<int>> :=
    [Load(I32), LoadB, LoadG(0), LoadL(I32, 0), Store, StoreB, StoreG(0), StoreL(0), AddrL(0), Alloc, Free]
  const CONTROL: seq<Instr<int>> := [Native(0), Call(0), Ret, Jmp(0), Jez(0), Jnz(0)]
  const ARITHMETIC: seq<Instr<int>> := [Arith(ADD), Arith(SUB), Arith(MUL), Arith(DIV), Arith(MOD)]
  const BITWISE: seq<Instr<int>> := [Not, Arith(AND), Arith(ORR), Arith(XOR), Arith(SHL), Arith(SHR), Arith(SAR)]
  const COMPARISON: seq<Instr<int>> :=
    [Arith(CEQ), Arith(CNE), Arith(CLT), Arith(CLE), Arith(CGT), Arith(CGE)]
  const OTHER: seq<Instr<int>> := [Conv(I32), Throw(ZeroRangeStep)]

  const TYPES := [I32, UI32, I64, UI64, F32, F64, PTR]

  const ERRORS := [ArrayIndexOutOfRange, NegativeArrayLength, ArrayInitialiserLength, ZeroRangeStep]

  /** The instructions of a group have consecutive opcodes. */
  predicate NumberedFrom(group: seq<Instr<int>>, first: nat) {
    forall k | 0 <= k < |group| :: Opcode(group[k]) == first + k
  }

  /** Opcodes number the instruction set from zero without gaps, type bytes and error bytes their tables. */
  lemma {:induction false} NumberedInOrder()
    ensures NumberedFrom(GENERAL, 0) && NumberedFrom(OPERAND_STACK, 0x02) && NumberedFrom(MEMORY, 0x08)
    ensures NumberedFrom(CONTROL, 0x13) && NumberedFrom(ARITHMETIC, 0x19) && NumberedFrom(BITWISE, 0x1e)
    ensures NumberedFrom(COMPARISON, 0x25) && NumberedFrom(OTHER, 0x2b)
    ensures forall ty: Ty :: TyByte(ty) < 7 && TYPES[TyByte(ty)] == ty
    ensures forall e: ErrorRef :: ErrorByte(e) < 4 && ERRORS[ErrorByte(e)] == e
  {
    hide NumberedFrom, Opcode;
    StackNumbered();
    MemoryNumbered();
    ControlNumbered();
    ArithmeticNumbered();
    BitwiseNumbered();
    ComparisonsNumbered();
  }

  lemma {:induction false} StackNumbered()
    ensures NumberedFrom(GENERAL, 0) && NumberedFrom(OPERAND_STACK, 0x02) && NumberedFrom(OTHER, 0x2b)
  {
  }

  lemma {:induction false} MemoryNumbered()
    ensures NumberedFrom(MEMORY, 0x08)
  {
  }

  lemma {:induction false} ControlNumbered()
    ensures NumberedFrom(CONTROL, 0x13)
  {
  }

  lemma {:induction false} ArithmeticNumbered()
    ensures NumberedFrom(ARITHMETIC, 0x19)
  {
  }

  lemma {:induction false} BitwiseNumbered()
    ensures NumberedFrom(BITWISE, 0x1e)
  {
  }

  lemma {:induction false} ComparisonsNumbered()
    ensures NumberedFrom(COMPARISON, 0x25)
  {
  }

  // ---------------------------------------------------------------- depths

  /** The assembler accepts for dup exactly the depths that an operand stack of at most 1024 can have, and for the
      rotations exactly the numbers from three up to all of its operands. */
  lemma {:induction false} DepthsAccepted(d: nat)
    ensures Encodable<Label>(Dup(d)) <==> d + 1 <= 1024
    ensures Encodable<Label>(RotD(d)) <==> 3 <= d <= 1024
    ensures Encodable<Label>(RotU(d)) <==> 3 <= d <= 1024
  {
  }

  // ---------------------------------------------------------------- the complete example

  function Plain(i: Instr<Label>): Statement {
    Statement.Code(Instruction(i))
  }

  const MAIN_CODE: seq<Statement> :=
    [Plain(LoadG(DataLabel("x"))), Plain(Push(I64, 10)), Plain(Call(MethodLabel(Function("add")))),
     Plain(PushLabel(DataLabel("msg"))), Plain(Native(3)), Plain(Halt)]

  const ADD_CODE: seq<Statement> :=
    [Statement.Code(MethodDef(MethodLabel(Function("add")), 2, 0)), Plain(LoadL(I64, 1)), Plain(LoadL(I64, 2)),
     Plain(Arith(ADD)), Plain(Ret)]

  const EXAMPLE_DATA: seq<Statement> :=
    [Data("x", Value(I64, 200)), Data("msg", Text([0x48, 0x65, 0x6C, 0x6C, 0x6F]))]

  const EXAMPLE := MAIN_CODE + ADD_CODE + EXAMPLE_DATA

  const MAIN_BYTES: Bytes :=
    [0x0a, 0x31, 0, 0, 0] + [0x02, 0x02, 0x0A, 0, 0, 0, 0, 0, 0, 0] + [0x14, 0x1D, 0, 0, 0]
      + [0x02, 0x06, 0x3A, 0, 0, 0] + [0x13, 0x03] + [0x01]

  const ADD_BYTES: Bytes :=
    [0x02, 0, 0, 0, 0] + [0x0b, 0x02, 0x01, 0, 0, 0] + [0x0b, 0x02, 0x02, 0, 0, 0] + [0x19] + [0x15]

  const DATA_BYTES: Bytes :=
    [0x02, 0xC8, 0, 0, 0, 0, 0, 0, 0] + [0x07, 0x05, 0, 0, 0, 0x48, 0x65, 0x6C, 0x6C, 0x6F]

  const HEADER: Bytes :=
    [0x43, 0, 0, 0] + [0x56, 0, 0, 0] + [0x56, 0, 0, 0] + [0x56, 0, 0, 0] + [0x56, 0, 0, 0]

  /** What appending a statement does to the lengths, the labels and the bytes. */
  lemma {:induction false} Append(ss: seq<Statement>, s: Statement)
    ensures CodeLen(ss + [s]) == CodeLen(ss) + if s.Code? then ItemSize(s.item) else 0
    ensures CountedLen(ss + [s]) == CountedLen(ss) + if s.Data? then CountedSize(s.datum) else 0
    ensures Table(ss + [s]) == if DefOf(s).Some? then Table(ss)[DefOf(s).value := Location(ss, s)] else Table(ss)
  {
    assert (ss + [s])[..|ss|] == ss;
  }

  lemma {:induction false} AppendBytes(ss: seq<Statement>, s: Statement, labels: Labels)
    requires AllKnown(ss, labels) && Known(s, labels)
    ensures AllKnown(ss + [s], labels) && Body(ss + [s], labels) == Body(ss, labels) + EncodeStatement(s, labels)
  {
    assert (ss + [s])[..|ss|] == ss;
  }

  lemma {:induction false} Small(v: nat)
    requires v < 256
    ensures LittleEndian(v, 4) == [v, 0, 0, 0] && LittleEndian(v, 8) == [v, 0, 0, 0, 0, 0, 0, 0]
  {
    assert LittleEndian(0, 1) == [0];
    assert LittleEndian(0, 2) == [0, 0];
    assert LittleEndian(0, 3) == [0, 0, 0];
    assert LittleEndian(0, 4) == [0, 0, 0, 0];
    assert LittleEndian(0, 5) == [0, 0, 0, 0, 0];
    assert LittleEndian(0, 6) == [0, 0, 0, 0, 0, 0];
    assert LittleEndian(0, 7) == [0, 0, 0, 0, 0, 0, 0];
    assert v / 256 == 0 && v % 256 == v;
  }

  /** Lengths and labels of the example, section by section. */
  lemma {:induction false} MainLength()
    ensures CodeLen(MAIN_CODE) == 0x1D && CountedLen(MAIN_CODE) == 0 && Table(MAIN_CODE) == map[]
  {
    hide CodeLen, CountedLen, Table;
    var s := MAIN_CODE;
    NoStatements();
    Append([], s[0]);
    Append(s[..1], s[1]);
    Append(s[..2], s[2]);
    Append(s[..3], s[3]);
    Append(s[..4], s[4]);
    Append(s[..5], s[5]);
    assert [] + [s[0]] == s[..1] && s[..1] + [s[1]] == s[..2] && s[..2] + [s[2]] == s[..3];
    assert s[..3] + [s[3]] == s[..4] && s[..4] + [s[4]] == s[..5] && s[..5] + [s[5]] == s;
  }

  lemma {:induction false} NoStatements()
    ensures CodeLen([]) == 0 && CountedLen([]) == 0 && Table([]) == map[]
  {
  }

  lemma {:induction false} CodeLength()
    ensures var ss := MAIN_CODE + ADD_CODE;
      CodeLen(ss) == 0x30 && CountedLen(ss) == 0 && Table(ss) == map[MethodLabel(Function("add")) := 0x1D]
  {
    hide CodeLen, CountedLen, Table;
    var m, s := MAIN_CODE, ADD_CODE;
    MainLength();
    Append(m, s[0]);
    Append(m + s[..1], s[1]);
    Append(m + s[..2], s[2]);
    Append(m + s[..3], s[3]);
    Append(m + s[..4], s[4]);
    assert m + [s[0]] == m + s[..1] && m + s[..1] + [s[1]] == m + s[..2] && m + s[..2] + [s[2]] == m + s[..3];
    assert m + s[..3] + [s[3]] == m + s[..4] && m + s[..4] + [s[4]] == m + s;
  }

  /** The method at 0x1D, the numbers behind their type bytes at 0x31 and 0x3A. */
  lemma {:induction false} ExampleLabels()
    ensures CodeLen(EXAMPLE) == 0x30 && CountedLen(EXAMPLE) == 0x13
    ensures Table(EXAMPLE) ==
      map[MethodLabel(Function("add")) := 0x1D, DataLabel("x") := 0x31, DataLabel("msg") := 0x3A]
  {
    hide CodeLen, CountedLen, Table;
    var c, s := MAIN_CODE + ADD_CODE, EXAMPLE_DATA;
    CodeLength();
    Append(c, s[0]);
    Append(c + s[..1], s[1]);
    assert c + [s[0]] == c + s[..1] && c + s[..1] + [s[1]] == EXAMPLE;
  }

  ghost predicate ExampleLabelled(labels: Labels) {
    labels == map[MethodLabel(Function("add")) := 0x1D, DataLabel("x") := 0x31, DataLabel("msg") := 0x3A]
  }

  lemma {:induction false} MainEncoded(labels: Labels)
    requires ExampleLabelled(labels)
    ensures forall k | 0 <= k < 6 :: Known(MAIN_CODE[k], labels)
    ensures EncodeStatement(MAIN_CODE[0], labels) == [0x0a, 0x31, 0, 0, 0]
    ensures EncodeStatement(MAIN_CODE[1], labels) == [0x02, 0x02, 0x0A, 0, 0, 0, 0, 0, 0, 0]
    ensures EncodeStatement(MAIN_CODE[2], labels) == [0x14, 0x1D, 0, 0, 0]
    ensures EncodeStatement(MAIN_CODE[3], labels) == [0x02, 0x06, 0x3A, 0, 0, 0]
    ensures EncodeStatement(MAIN_CODE[4], labels) == [0x13, 0x03] && EncodeStatement(MAIN_CODE[5], labels) == [0x01]
  {
    hide LittleEndian;
    Small(0x31);
    Small(10);
    Small(0x1D);
    Small(0x3A);
  }

  lemma {:induction false} MainBytes(labels: Labels)
    requires ExampleLabelled(labels)
    ensures AllKnown(MAIN_CODE, labels) && Body(MAIN_CODE, labels) == MAIN_BYTES
  {
    hide Body, LittleEndian, EncodeStatement, Known, ExampleLabelled;
    var s := MAIN_CODE;
    MainEncoded(labels);
    assert Body([], labels) == [] by { NoBytes(labels); }
    AppendBytes([], s[0], labels);
    AppendBytes(s[..1], s[1], labels);
    AppendBytes(s[..2], s[2], labels);
    AppendBytes(s[..3], s[3], labels);
    AppendBytes(s[..4], s[4], labels);
    AppendBytes(s[..5], s[5], labels);
    assert [] + [s[0]] == s[..1] && s[..1] + [s[1]] == s[..2] && s[..2] + [s[2]] == s[..3];
    assert s[..3] + [s[3]] == s[..4] && s[..4] + [s[4]] == s[..5] && s[..5] + [s[5]] == s;
  }

  lemma {:induction false} NoBytes(labels: Labels)
    ensures Body([], labels) == []
  {
  }

  lemma {:induction false} AddEncoded(labels: Labels)
    requires ExampleLabelled(labels)
    ensures forall k | 0 <= k < 5 :: Known(ADD_CODE[k], labels)
    ensures EncodeStatement(ADD_CODE[0], labels) == [0x02, 0, 0, 0, 0]
    ensures EncodeStatement(ADD_CODE[1], labels) == [0x0b, 0x02, 0x01, 0, 0, 0]
    ensures EncodeStatement(ADD_CODE[2], labels) == [0x0b, 0x02, 0x02, 0, 0, 0]
    ensures EncodeStatement(ADD_CODE[3], labels) == [0x19] && EncodeStatement(ADD_CODE[4], labels) == [0x15]
  {
    hide LittleEndian;
    Small(0);
    Small(1);
    Small(2);
  }

  lemma {:induction false} CodeBytes(labels: Labels)
    requires ExampleLabelled(labels)
    ensures var ss := MAIN_CODE + ADD_CODE; AllKnown(ss, labels) && Body(ss, labels) == MAIN_BYTES + ADD_BYTES
  {
    hide Body, LittleEndian, EncodeStatement, Known, ExampleLabelled;
    var m, s := MAIN_CODE, ADD_CODE;
    MainBytes(labels);
    AddEncoded(labels);
    AppendBytes(m, s[0], labels);
    AppendBytes(m + s[..1], s[1], labels);
    AppendBytes(m + s[..2], s[2], labels);
    AppendBytes(m + s[..3], s[3], labels);
    AppendBytes(m + s[..4], s[4], labels);
    assert m + [s[0]] == m + s[..1] && m + s[..1] + [s[1]] == m + s[..2] && m + s[..2] + [s[2]] == m + s[..3];
    assert m + s[..3] + [s[3]] == m + s[..4] && m + s[..4] + [s[4]] == m + s;
  }

  /** The complete example of the format's description assembles to the bytes given there, apart from the immediate
      10, which the description writes as 0x10. */
  lemma {:induction false} DocumentedExample()
    ensures AllKnown(EXAMPLE, Table(EXAMPLE))
    ensures Assembly(EXAMPLE) == HEADER + (MAIN_BYTES + ADD_BYTES + DATA_BYTES)
  {
    hide Body, LittleEndian, CodeLen, CountedLen, Table;
    var labels, c, s := Table(EXAMPLE), MAIN_CODE + ADD_CODE, EXAMPLE_DATA;
    ExampleLabels();
    CodeBytes(labels);
    Small(200);
    Small(5);
    Small(0x43);
    Small(0x56);
    AppendBytes(c, s[0], labels);
    AppendBytes(c + s[..1], s[1], labels);
    assert c + [s[0]] == c + s[..1] && c + s[..1] + [s[1]] == EXAMPLE;
  }
}
