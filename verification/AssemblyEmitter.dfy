/** The emitter's address counter: it adds up operand by operand what the assembler's first pass adds up
    instruction by instruction, so line table ranges are byte ranges of the assembled code. */
module AssemblyEmitter {
  import opened Words
  import opened Isa
  import opened Source
  import opened CodeGen
  import opened Assembler
  import opened DebugMap

  /** An item of the generator's output and the source position it carries, if any. */
  datatype Marked = Marked(item: Item, pos: Option<Position>)

  function Statements(ms: seq<Marked>): seq<Statement> {
    seq(|ms|, i requires 0 <= i < |ms| => Statement.Code(ms[i].item))
  }

  /** Address of the item behind `ms`, as the assembler counts. */
  function AddressAfter(ms: seq<Marked>): nat {
    CodeLen(Statements(ms))
  }

  lemma {:induction false} AddressNext(ms: seq<Marked>, m: Marked)
    ensures AddressAfter(ms + [m]) == AddressAfter(ms) + ItemSize(m.item)
  {
    var ss := Statements(ms + [m]);
    assert ss[..|ss| - 1] == Statements(ms);
  }

  /** Method definitions always carry a position; label definitions get no entry. */
  predicate Markable(m: Marked) {
    m.item.MethodDef? ==> m.pos.Some?
  }

  /** One entry for every instruction or method definition that carries a position. */
  function Lines(ms: seq<Marked>): LineTable {
    if ms == [] then []
    else
      var before, m := ms[..|ms| - 1], ms[|ms| - 1];
      if m.item.LabelDef? || m.pos.None? then Lines(before)
      else Lines(before) + [Entry(AddressAfter(before), AddressAfter(before) + ItemSize(m.item), m.pos.value)]
  }

  // ---------------------------------------------------------------- what the table says

  lemma {:induction false} LinesSorted(ms: seq<Marked>)
    ensures Sorted(Lines(ms)) && forall i {:trigger Lines(ms)[i]} | 0 <= i < |Lines(ms)| ::
      Lines(ms)[i].end <= AddressAfter(ms)
    decreases |ms|
  {
    hide CodeLen;
    if ms != [] {
      var before, m := ms[..|ms| - 1], ms[|ms| - 1];
      assert before + [m] == ms;
      LinesSorted(before);
      AddressNext(before, m);
    }
  }

  lemma {:induction false} AddressGrows(ms: seq<Marked>, j: nat, k: nat)
    requires j <= k <= |ms|
    ensures AddressAfter(ms[..j]) <= AddressAfter(ms[..k])
    decreases k - j
  {
    if j < k {
      AddressGrows(ms, j, k - 1);
      assert ms[..k] == ms[..k - 1] + [ms[k - 1]];
      AddressNext(ms[..k - 1], ms[k - 1]);
    }
  }

  /** The table maps every byte of an item to the position of the item, and to nothing when it has none. */
  lemma {:induction false} LinesFind(ms: seq<Marked>, k: nat, a: int)
    requires k < |ms| && AddressAfter(ms[..k]) <= a < AddressAfter(ms[..k + 1])
    ensures Find(Lines(ms), a) == ms[k].pos
    decreases |ms|
  {
    hide CodeLen, Find;
    var before, m := ms[..|ms| - 1], ms[|ms| - 1];
    var at := AddressAfter(before);
    assert before + [m] == ms;
    AddressNext(before, m);
    OneEntry(at, at + ItemSize(m.item), m.pos, a);
    if k == |ms| - 1 {
      assert ms[..k + 1] == ms;
      FindBelow(before, a);
      if !m.item.LabelDef? && m.pos.Some? {
        FindConcat(Lines(before), [Entry(at, at + ItemSize(m.item), m.pos.value)], a);
      }
    } else {
      assert ms[..k] == before[..k] && ms[..k + 1] == before[..k + 1];
      LinesFind(before, k, a);
      AddressGrows(before, k + 1, |before|);
      assert before[..|before|] == before;
      if !m.item.LabelDef? && m.pos.Some? {
        FindConcat(Lines(before), [Entry(at, at + ItemSize(m.item), m.pos.value)], a);
      }
    }
  }

  lemma {:induction false} OneEntry(lo: int, hi: int, pos: Option<Position>, a: int)
    ensures pos.Some? ==> Find([Entry(lo, hi, pos.value)], a) == if lo <= a < hi then pos else None
  {
    if pos.Some? {
      assert [Entry(lo, hi, pos.value)][1..] == [];
    }
  }

  lemma {:induction false} FindBelow(ms: seq<Marked>, a: int)
    requires a >= AddressAfter(ms)
    ensures Find(Lines(ms), a) == None
  {
    LinesSorted(ms);
    if Find(Lines(ms), a).Some? {
      var i := FindSome(Lines(ms), a);
    }
  }

  /** A running instruction has PC behind its last byte, and a caller's return address is behind its call:
      one less is inside the instruction. */
  lemma {:induction false} FaultPosition(ms: seq<Marked>, k: nat, i: Instr<Label>)
    requires k < |ms| && ms[k].item == Instruction(i)
    ensures Find(Lines(ms), AddressAfter(ms[..k]) + Size(i) - 1) == ms[k].pos
  {
    assert ms[..k + 1] == ms[..k] + [ms[k]];
    AddressNext(ms[..k], ms[k]);
    LinesFind(ms, k, AddressAfter(ms[..k]) + Size(i) - 1);
  }

  // ---------------------------------------------------------------- the emitter

  /** Operands as the generator's instructions hold them. */
  datatype Operand = TypeOperand(ty: Ty) | NumberOperand(ty: Ty) | LabelOperand | NativeOperand | ErrorOperand

  function OperandsOf(i: Instr<Label>): seq<Operand> {
    match i
    case Push(ty, _) => [TypeOperand(ty), NumberOperand(ty)]
    case PushLabel(_) => [TypeOperand(PTR), LabelOperand]
    case Dup(_) => [NumberOperand(UI32)]
    case RotD(_) => [NumberOperand(UI32)]
    case RotU(_) => [NumberOperand(UI32)]
    case Load(ty) => [TypeOperand(ty)]
    case LoadL(ty, _) => [TypeOperand(ty), NumberOperand(I32)]
    case StoreL(_) => [NumberOperand(I32)]
    case AddrL(_) => [NumberOperand(I32)]
    case LoadG(_) => [LabelOperand]
    case StoreG(_) => [LabelOperand]
    case Native(_) => [NativeOperand]
    case Call(_) => [LabelOperand]
    case Jmp(_) => [LabelOperand]
    case Jez(_) => [LabelOperand]
    case Jnz(_) => [LabelOperand]
    case Conv(ty) => [TypeOperand(ty)]
    case Throw(_) => [ErrorOperand]
    case _ => []
  }

  /** Bytes emitOperand counts for an operand of an instruction. */
  function OperandBytes(i: Instr<Label>, o: Operand): nat {
    match o
    case TypeOperand(_) => 1
    case LabelOperand => 4
    case NativeOperand => 1
    case ErrorOperand => 1
    case NumberOperand(ty) =>
      if i.Dup? || i.RotD? || i.RotU? then 2 else if i.LoadL? || i.StoreL? then 4 else Width(ty)
  }

  function CountOperands(i: Instr<Label>, n: nat): nat
    requires n <= |OperandsOf(i)|
  {
    if n == 0 then 0 else CountOperands(i, n - 1) + OperandBytes(i, OperandsOf(i)[n - 1])
  }

  /** Counting operand by operand comes to the assembler's size. */
  lemma {:induction false} CountIsSize(i: Instr<Label>)
    ensures 1 + CountOperands(i, |OperandsOf(i)|) == Size(i)
  {
    if |OperandsOf(i)| > 0 {
      assert CountOperands(i, 1) == CountOperands(i, 0) + OperandBytes(i, OperandsOf(i)[0]);
    }
  }

  class Emitter {
    var currentAddress: nat
    var lineTable: LineTable
    ghost var emitted: seq<Marked>

    ghost predicate Valid()
      reads this
    {
      currentAddress == AddressAfter(emitted) && lineTable == Lines(emitted)
    }

    constructor ()
      ensures Valid() && emitted == []
    {
      currentAddress, lineTable, emitted := 0, [], [];
    }

    method EmitInstruction(i: Instr<Label>, source: Option<Position>)
      requires Valid()
      modifies this
      ensures Valid() && emitted == old(emitted) + [Marked(Instruction(i), source)]
    {
      hide CodeLen, OperandsOf, CountOperands, Size;
      var startAddress := currentAddress;
      currentAddress := currentAddress + 1;
      EmitOperands(i);
      CountIsSize(i);
      if source.Some? {
        lineTable := lineTable + [Entry(startAddress, currentAddress, source.value)];
      }
      Extend(Marked(Instruction(i), source));
    }

    method EmitOperands(i: Instr<Label>)
      modifies this`currentAddress
      ensures currentAddress == old(currentAddress) + CountOperands(i, |OperandsOf(i)|)
    {
      hide OperandsOf, OperandBytes;
      var operands := OperandsOf(i);
      var k := 0;
      while k < |operands|
        invariant 0 <= k <= |operands| && currentAddress == old(currentAddress) + CountOperands(i, k)
      {
        currentAddress := currentAddress + OperandBytes(i, operands[k]);
        k := k + 1;
      }
    }

    ghost method Extend(m: Marked)
      modifies this`emitted
      ensures emitted == old(emitted) + [m] && AddressAfter(emitted) == AddressAfter(old(emitted)) + ItemSize(m.item)
      ensures Lines(emitted) == Lines(old(emitted)) +
        if m.item.LabelDef? || m.pos.None? then []
        else [Entry(AddressAfter(old(emitted)), AddressAfter(old(emitted)) + ItemSize(m.item), m.pos.value)]
    {
      hide CodeLen;
      AddressNext(emitted, m);
      emitted := emitted + [m];
      assert emitted[..|emitted| - 1] == old(emitted);
    }

    method EmitMethodDef(name: Label, args: Byte, locals: int, source: Position)
      requires Valid()
      modifies this
      ensures Valid() && emitted == old(emitted) + [Marked(MethodDef(name, args, locals), Some(source))]
    {
      hide CodeLen;
      var startAddress := currentAddress;
      currentAddress := currentAddress + 5;
      lineTable := lineTable + [Entry(startAddress, currentAddress, source)];
      Extend(Marked(MethodDef(name, args, locals), Some(source)));
    }

    /** emitProgram over code items. */
    method EmitProgram(assemblyIR: seq<Marked>)
      requires Valid() && emitted == [] && forall k | 0 <= k < |assemblyIR| :: Markable(assemblyIR[k])
      modifies this
      ensures Valid() && emitted == assemblyIR
    {
      hide CodeLen, Lines;
      var k := 0;
      while k < |assemblyIR|
        invariant 0 <= k <= |assemblyIR| && Valid() && emitted == assemblyIR[..k]
      {
        var m := assemblyIR[k];
        match m.item {
          case Instruction(i) => EmitInstruction(i, m.pos);
          case MethodDef(l, args, locals) => EmitMethodDef(l, args, locals, m.pos.value);
          case LabelDef(_) => Extend(m);
        }
        k := k + 1;
      }
    }
  }

  predicate StorablePosition(p: Position) {
    0 <= p.source < 0x1_0000 && IsWord(p.line) && 0 <= p.column < 0x1_0000
  }

  ghost predicate AllStorable(ms: seq<Marked>) {
    forall k | 0 <= k < |ms| :: ms[k].pos.Some? ==> StorablePosition(ms[k].pos.value)
  }

  lemma {:induction false} LineValues(ms: seq<Marked>)
    requires AllStorable(ms)
    ensures forall i {:trigger Lines(ms)[i]} | 0 <= i < |Lines(ms)| ::
      0 <= Lines(ms)[i].start && StorablePosition(Lines(ms)[i].value)
  {
    hide CodeLen, StorablePosition;
    if ms != [] {
      LineValues(ms[..|ms| - 1]);
    }
  }

  /** Entries of any table that says what the line table says fit into their bytes. */
  lemma {:induction false} StorableLines(ms: seq<Marked>, t: LineTable)
    requires AllStorable(ms) && AddressAfter(ms) < W32 && Sorted(t) && forall a :: Find(t, a) == Find(Lines(ms), a)
    ensures forall i | 0 <= i < |t| :: Storable(t[i])
  {
    hide CodeLen, Lines, Find;
    LineValues(ms);
    LinesSorted(ms);
    forall i | 0 <= i < |t|
      ensures Storable(t[i])
    {
      FindAt(t, i, t[i].start);
      FindAt(t, i, t[i].end - 1);
      var j := FindSome(Lines(ms), t[i].start);
      var k := FindSome(Lines(ms), t[i].end - 1);
    }
  }

  /** From the generator's items to the answer at run time: emit, merge, write, read back, search. */
  method PositionOf(assemblyIR: seq<Marked>, address: nat) returns (r: Option<Position>)
    requires AllStorable(assemblyIR) && forall k | 0 <= k < |assemblyIR| :: Markable(assemblyIR[k])
    requires AddressAfter(assemblyIR) < W32
    ensures r == Find(Lines(assemblyIR), address)
    ensures forall k | 0 <= k < |assemblyIR|
      && AddressAfter(assemblyIR[..k]) <= address < AddressAfter(assemblyIR[..k + 1]) :: r == assemblyIR[k].pos
  {
    hide CodeLen, Lines, Find, Sorted, EncodeTable;
    var emitter := new Emitter();
    emitter.EmitProgram(assemblyIR);
    LinesSorted(assemblyIR);
    var table := emitter.lineTable;
    if table != [] {
      var merged := MergeLines(table);
      StorableLines(assemblyIR, merged);
      var bytes := EncodeTable(merged);
      table := ReadTable(bytes, merged);
    }
    r := Lookup(table, address);
    forall k | 0 <= k < |assemblyIR| && AddressAfter(assemblyIR[..k]) <= address < AddressAfter(assemblyIR[..k + 1])
      ensures r == assemblyIR[k].pos
    {
      LinesFind(assemblyIR, k, address);
    }
  }

}
