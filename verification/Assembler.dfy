/** The two passes of the assembler: label addresses by size rules, then bytes. */
module Assembler {
  import opened Words
  import opened Isa
  import opened Source
  import opened CodeGen
  import opened Encoding

  const HEADER_SIZE := 20

  datatype Datum = Value(ty: Ty, v: int) | Address(name: string) | Text(chars: Bytes)

  datatype Statement = Code(item: Item) | Data(name: string, datum: Datum)

  // ---------------------------------------------------------------- sizes

  function ItemSize(it: Item): nat {
    match it
    case Instruction(i) => Size(i)
    case LabelDef(_) => 0
    case MethodDef(_, _, _) => 5
  }

  /** Bytes of a datum: its type byte and its value, a text with its length in front. */
  function DatumSize(d: Datum): nat {
    match d
    case Value(ty, _) => 1 + Width(ty)
    case Address(_) => 5
    case Text(chars) => 5 + |chars|
  }

  /** calculateBytesOfData adds the length up in a uint8_t. */
  function CountedSize(d: Datum): nat {
    DatumSize(d) % 256
  }

  function CodeLen(ss: seq<Statement>): nat {
    if ss == [] then 0
    else
      var s := ss[|ss| - 1];
      CodeLen(ss[..|ss| - 1]) + if s.Code? then ItemSize(s.item) else 0
  }

  function DataLen(ss: seq<Statement>): nat {
    if ss == [] then 0
    else
      var s := ss[|ss| - 1];
      DataLen(ss[..|ss| - 1]) + if s.Data? then DatumSize(s.datum) else 0
  }

  function CountedLen(ss: seq<Statement>): nat {
    if ss == [] then 0
    else
      var s := ss[|ss| - 1];
      CountedLen(ss[..|ss| - 1]) + if s.Data? then CountedSize(s.datum) else 0
  }

  // ---------------------------------------------------------------- labels

  function DefOf(s: Statement): Option<Label> {
    match s
    case Code(LabelDef(l)) => Some(l)
    case Code(MethodDef(l, _, _)) => Some(l)
    case Code(Instruction(_)) => None
    case Data(name, _) => Some(DataLabel(name))
  }

  function RefOf(s: Statement): Option<Label> {
    match s
    case Code(Instruction(i)) =>
      if i.PushLabel? || i.LoadG? || i.StoreG? || i.Call? || i.Jmp? || i.Jez? || i.Jnz? then Some(i.target) else None
    case Data(_, Address(name)) => Some(DataLabel(name))
    case _ => None
  }

  /** Where the first pass places a definition that follows the statements `before`. */
  function Location(before: seq<Statement>, s: Statement): nat {
    if s.Data? then CodeLen(before) + CountedLen(before) + 1 else CodeLen(before)
  }

  function Table(ss: seq<Statement>): Labels {
    if ss == [] then map[]
    else
      var before, s := ss[..|ss| - 1], ss[|ss| - 1];
      if DefOf(s).Some? then Table(before)[DefOf(s).value := Location(before, s)] else Table(before)
  }

  predicate NoRedefinition(ss: seq<Statement>) {
    ss == [] ||
    (NoRedefinition(ss[..|ss| - 1]) && (DefOf(ss[|ss| - 1]).Some?
      ==> DefOf(ss[|ss| - 1]).value !in Table(ss[..|ss| - 1])))
  }

  function Refs(ss: seq<Statement>): set<Label> {
    if ss == [] then {}
    else
      Refs(ss[..|ss| - 1]) + if RefOf(ss[|ss| - 1]).Some? then {RefOf(ss[|ss| - 1]).value} else {}
  }

  // ---------------------------------------------------------------- bytes

  function StatementSize(s: Statement): nat {
    if s.Code? then ItemSize(s.item) else DatumSize(s.datum)
  }

  predicate Known(s: Statement, labels: Labels) {
    RefOf(s).Some? ==> RefOf(s).value in labels
  }

  function EncodeDatum(d: Datum, labels: Labels): Bytes
    requires d.Address? ==> DataLabel(d.name) in labels
  {
    match d
    case Value(ty, v) => [TyByte(ty)] + LittleEndian(v, Width(ty))
    case Address(name) => [TyByte(PTR)] + LittleEndian(labels[DataLabel(name)], 4)
    case Text(chars) => [7] + LittleEndian(|chars|, 4) + chars
  }

  function EncodeStatement(s: Statement, labels: Labels): (b: Bytes)
    requires Known(s, labels)
    ensures |b| == StatementSize(s)
  {
    match s
    case Code(Instruction(i)) => Encode(i, labels)
    case Code(LabelDef(_)) => []
    case Code(MethodDef(_, args, locals)) => [args] + LittleEndian(locals, 4)
    case Data(_, d) => EncodeDatum(d, labels)
  }

  function Body(ss: seq<Statement>, labels: Labels): Bytes
    requires forall i | 0 <= i < |ss| :: Known(ss[i], labels)
  {
    if ss == [] then [] else Body(ss[..|ss| - 1], labels) + EncodeStatement(ss[|ss| - 1], labels)
  }

  /** The header: last byte of the code, of the data, and three equal ends when there is no metadata. */
  function HeaderBytes(codeEnd: int, dataEnd: int): (b: Bytes)
    ensures |b| == HEADER_SIZE
  {
    LittleEndian(codeEnd, 4) + LittleEndian(dataEnd, 4) + LittleEndian(dataEnd, 4) + LittleEndian(dataEnd, 4)
      + LittleEndian(dataEnd, 4)
  }

  predicate ImmediatesOk(ss: seq<Statement>) {
    forall i | 0 <= i < |ss| :: ss[i].Code? && ss[i].item.Instruction? ==> Encodable(ss[i].item.i)
  }

  // ---------------------------------------------------------------- the assembler

  datatype Verdict = Accepted | AlreadyDefined(l: Label) | Undefined(l: Label) | BadImmediate

  lemma {:induction false} LittleEndianNext(v: int, n: nat)
    ensures LittleEndian(v, n + 1) == LittleEndian(v, n) + [v / Radix(n) % 256]
    decreases n
  {
    if n > 0 {
      LittleEndianNext(v / 256, n - 1);
      DivideTwice(v, Radix(n - 1));
    }
  }

  class Assembler {
    var labelTable: Labels
    var codeEndLocation: int
    var dataEndLocation: int

    constructor ()
      ensures labelTable == map[]
    {
      labelTable := map[];
      codeEndLocation := 0;
      dataEndLocation := 0;
    }

    /** First pass: it accepts exactly the lists that define no label twice and refer to no undefined one,
        and then every label is in the table at its location. */
    method ConstructLabelTable(ss: seq<Statement>) returns (v: Verdict)
      requires labelTable == map[]
      modifies this
      ensures v.Accepted? <==> NoRedefinition(ss) && Refs(ss) <= Table(ss).Keys
      ensures v.AlreadyDefined? <==> !NoRedefinition(ss)
      ensures v.Undefined? ==> v.l in Refs(ss) && v.l !in Table(ss)
      ensures v.Accepted? ==> labelTable == Table(ss)
      ensures v.Accepted? ==> codeEndLocation == HEADER_SIZE + CodeLen(ss) - 1
      ensures v.Accepted? ==> dataEndLocation == HEADER_SIZE + CodeLen(ss) + CountedLen(ss) - 1
    {
      var codeSectionLength, dataSectionLength := 0, 0;
      var unhandledLabelRefs: set<Label> := {};
      for k := 0 to |ss|
        invariant codeSectionLength == CodeLen(ss[..k]) && dataSectionLength == CountedLen(ss[..k])
        invariant labelTable == Table(ss[..k]) && NoRedefinition(ss[..k])
        invariant unhandledLabelRefs == Refs(ss[..k]) - labelTable.Keys
      {
        var s := ss[k];
        Extend(ss, k);
        if DefOf(s).Some? {
          var l := DefOf(s).value;
          if l in labelTable {
            Prefix(ss, k + 1);
            return AlreadyDefined(l);
          }
          unhandledLabelRefs := unhandledLabelRefs - {l};
          labelTable := labelTable[l := if s.Data? then codeSectionLength + dataSectionLength + 1
            else codeSectionLength];
        }
        if RefOf(s).Some? && RefOf(s).value !in labelTable {
          unhandledLabelRefs := unhandledLabelRefs + {RefOf(s).value};
        }
        if s.Data? {
          dataSectionLength := dataSectionLength + CountedSize(s.datum);
        } else {
          codeSectionLength := codeSectionLength + ItemSize(s.item);
        }
      }
      assert ss[..|ss|] == ss;
      if unhandledLabelRefs != {} {
        var l :| l in unhandledLabelRefs;
        return Verdict.Undefined(l);
      }
      codeEndLocation := HEADER_SIZE + codeSectionLength - 1;
      dataEndLocation := HEADER_SIZE + codeSectionLength + dataSectionLength - 1;
      return Accepted;
    }

    /** The n low bytes of a number, shifted out one by one. */
    method PushNumber(bytecode: Bytes, v: int, n: nat) returns (r: Bytes)
      ensures r == bytecode + LittleEndian(v, n)
    {
      r := bytecode;
      for i := 0 to n
        invariant r == bytecode + LittleEndian(v, i)
      {
        r := r + [v / Radix(i) % 256];
        LittleEndianNext(v, i);
      }
    }

    method GenerateHeader() returns (bytecode: Bytes)
      ensures bytecode == HeaderBytes(codeEndLocation, dataEndLocation)
    {
      hide LittleEndian;
      bytecode := PushNumber([], codeEndLocation, 4);
      bytecode := PushNumber(bytecode, dataEndLocation, 4);
      bytecode := PushNumber(bytecode, dataEndLocation, 4);
      bytecode := PushNumber(bytecode, dataEndLocation, 4);
      bytecode := PushNumber(bytecode, dataEndLocation, 4);
    }

    /** Second pass, with the label table of the first. */
    method GenerateBytecode(ss: seq<Statement>) returns (v: Verdict, bytecode: Bytes)
      requires forall i | 0 <= i < |ss| :: Known(ss[i], labelTable)
      ensures v == if ImmediatesOk(ss) then Accepted else BadImmediate
      ensures v.Accepted? ==> bytecode == HeaderBytes(codeEndLocation, dataEndLocation) + Body(ss, labelTable)
    {
      hide LittleEndian, EncodeStatement, HeaderBytes;
      bytecode := GenerateHeader();
      ghost var header := HeaderBytes(codeEndLocation, dataEndLocation);
      for k := 0 to |ss|
        invariant ImmediatesOk(ss[..k]) && bytecode == header + Body(ss[..k], labelTable)
      {
        var s := ss[k];
        Extend(ss, k);
        if s.Code? && s.item.Instruction? && !Encodable(s.item.i) {
          return BadImmediate, [];
        }
        assert Body(ss[..k + 1], labelTable) == Body(ss[..k], labelTable) + EncodeStatement(s, labelTable);
        assert bytecode + EncodeStatement(s, labelTable) == header
          + (Body(ss[..k], labelTable) + EncodeStatement(s, labelTable));
        bytecode := bytecode + EncodeStatement(s, labelTable);
      }
      assert ss[..|ss|] == ss;
      return Accepted, bytecode;
    }
  }

  lemma {:induction false} Extend(ss: seq<Statement>, k: nat)
    requires k < |ss|
    ensures |ss[..k + 1]| == k + 1 && ss[..k + 1][k] == ss[k] && ss[..k + 1][..k] == ss[..k]
  {
  }

  lemma {:induction false} Prefix(ss: seq<Statement>, k: nat)
    requires k <= |ss| && !NoRedefinition(ss[..k])
    ensures !NoRedefinition(ss)
    decreases |ss| - k
  {
    if k == |ss| {
      assert ss[..k] == ss;
    } else {
      Extend(ss, k);
      Prefix(ss, k + 1);
    }
  }
}
