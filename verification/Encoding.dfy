/** Bytes of an instruction as the assembler writes them, and the instruction the VM fetches back. */
module Encoding {
  import opened Words
  import opened Isa
  import opened Source

  type Bytes = seq<Byte>

  /** The n low bytes of an integer, least significant first. */
  function LittleEndian(v: int, n: nat): (b: Bytes)
    ensures |b| == n
    decreases n
  {
    if n == 0 then [] else [v % 256] + LittleEndian(v / 256, n - 1)
  }

  function Number(b: Bytes): nat {
    if b == [] then 0 else b[0] + 256 * Number(b[1..])
  }

  function Radix(n: nat): (p: int)
    ensures p > 0
  {
    if n == 0 then 1 else 256 * Radix(n - 1)
  }

  lemma {:induction false} NumberOfLittleEndian(v: int, n: nat)
    ensures Number(LittleEndian(v, n)) == v % Radix(n)
    decreases n
  {
    if n > 0 {
      NumberOfLittleEndian(v / 256, n - 1);
      var b := LittleEndian(v, n);
      assert b[1..] == LittleEndian(v / 256, n - 1);
      LowByteFirst(v, Radix(n - 1));
    }
  }

  lemma {:induction false} Radices()
    ensures Radix(2) == 0x1_0000 && Radix(4) == W32 && Radix(8) == W64
  {
    assert Radix(4) == W32;
    assert Radix(8) == W64;
  }

  // ---------------------------------------------------------------- opcode tables

  function TyByte(ty: Ty): Byte {
    match ty
    case I32 => 0 case UI32 => 1 case I64 => 2 case UI64 => 3 case F32 => 4 case F64 => 5 case PTR => 6
  }

  function TyOf(b: Byte): Option<Ty> {
    if b == 0 then Some(I32) else if b == 1 then Some(UI32) else if b == 2 then Some(I64) else if b == 3 then Some(UI64)
    else if b == 4 then Some(F32) else if b == 5 then Some(F64) else if b == 6 then Some(PTR) else None
  }

  function ErrorByte(e: ErrorRef): Byte {
    match e
    case ArrayIndexOutOfRange => 0
    case NegativeArrayLength => 1
    case ArrayInitialiserLength => 2
    case ZeroRangeStep => 3
  }

  function ErrorOf(b: Byte): Option<ErrorRef> {
    if b == 0 then Some(ArrayIndexOutOfRange) else if b == 1 then Some(NegativeArrayLength)
    else if b == 2 then Some(ArrayInitialiserLength) else if b == 3 then Some(ZeroRangeStep) else None
  }

  function ArithByte(op: ArithOp): Byte {
    match op
    case ADD => 0x19 case SUB => 0x1a case MUL => 0x1b case DIV => 0x1c case MOD => 0x1d
    case AND => 0x1f case ORR => 0x20 case XOR => 0x21 case SHL => 0x22 case SHR => 0x23 case SAR => 0x24
    case CEQ => 0x25 case CNE => 0x26 case CLT => 0x27 case CLE => 0x28 case CGT => 0x29 case CGE => 0x2a
  }

  function Opcode<L>(i: Instr<L>): Byte {
    match i
    case Nop => 0x00 case Halt => 0x01
    case Push(_, _) => 0x02 case PushLabel(_) => 0x02 case Pop => 0x03 case Dup(_) => 0x04 case Swap => 0x05
    case RotD(_) => 0x06 case RotU(_) => 0x07
    case Load(_) => 0x08 case LoadB => 0x09 case LoadG(_) => 0x0a case LoadL(_, _) => 0x0b
    case Store => 0x0c case StoreB => 0x0d case StoreG(_) => 0x0e case StoreL(_) => 0x0f case AddrL(_) => 0x10
    case Alloc => 0x11 case Free => 0x12
    case Native(_) => 0x13 case Call(_) => 0x14 case Ret => 0x15 case Jmp(_) => 0x16 case Jez(_) => 0x17 case Jnz(_) =>
      0x18
    case Arith(op) => ArithByte(op) case Not => 0x1e
    case Conv(_) => 0x2b case Throw(_) => 0x2c
  }

  // ---------------------------------------------------------------- assembler side

  /** The operand bytes behind the opcode, in the order the operands are written. */
  function Operands(i: Instr<Label>, labels: Labels): Bytes
    requires LabelsKnown(i, labels)
  {
    match i
    case Push(ty, imm) => [TyByte(ty)] + LittleEndian(imm, Width(ty))
    case PushLabel(l) => [TyByte(PTR)] + LittleEndian(labels[l], 4)
    case Dup(d) => LittleEndian(d, 2)
    case RotD(d) => LittleEndian(d, 2)
    case RotU(d) => LittleEndian(d, 2)
    case Load(ty) => [TyByte(ty)]
    case LoadL(ty, off) => [TyByte(ty)] + LittleEndian(off, 4)
    case LoadG(l) => LittleEndian(labels[l], 4)
    case StoreG(l) => LittleEndian(labels[l], 4)
    case StoreL(off) => LittleEndian(off, 4)
    case AddrL(off) => LittleEndian(off, 4)
    case Native(id) => [id]
    case Call(l) => LittleEndian(labels[l], 4)
    case Jmp(l) => LittleEndian(labels[l], 4)
    case Jez(l) => LittleEndian(labels[l], 4)
    case Jnz(l) => LittleEndian(labels[l], 4)
    case Conv(ty) => [TyByte(ty)]
    case Throw(e) => [ErrorByte(e)]
    case _ => []
  }

  function Encode(i: Instr<Label>, labels: Labels): (b: Bytes)
    requires LabelsKnown(i, labels)
  {
    [Opcode(i)] + Operands(i, labels)
  }

  /** The size rules of the first pass are the lengths the second pass writes. */
  lemma {:induction false} EncodedSize(i: Instr<Label>, labels: Labels)
    requires LabelsKnown(i, labels)
    ensures |Encode(i, labels)| == Size(i)
  {
  }

  // ---------------------------------------------------------------- VM side

  /** The n bytes at an address as a number. */
  function NumberAt(b: Bytes, at: nat, n: nat): Option<int> {
    if at + n <= |b| then Some(Number(b[at..at + n])) else None
  }

  /** Instructions without operands. */
  function PlainOf(op: Byte): Option<Instr<int>> {
    if op < 0x19 then
      if op == 0x00 then Some(Nop) else if op == 0x01 then Some(Halt) else if op == 0x03 then Some(Pop)
      else if op == 0x05 then Some(Swap)
      else if op == 0x09 then Some(LoadB) else if op == 0x0c then Some(Store) else if op == 0x0d then Some(StoreB)
      else if op == 0x11 then Some(Alloc) else if op == 0x12 then Some(Free) else if op == 0x15 then Some(Ret) else None
    else ArithOf(op)
  }

  function ArithOf(op: Byte): Option<Instr<int>> {
    if op == 0x1e then Some(Not)
    else if 0x19 <= op <= 0x1d then Some(Arith([ADD, SUB, MUL, DIV, MOD][op - 0x19]))
    else if 0x1f <= op <= 0x2a then Some(Arith([AND, ORR, XOR, SHL, SHR, SAR, CEQ, CNE, CLT, CLE, CGT, CGE][op - 0x1f]))
    else None
  }

  /** Instructions with one word behind the opcode. */
  function WordOf(op: Byte, w: int): Option<Instr<int>> {
    if op == 0x0a then Some(LoadG(w)) else if op == 0x0e then Some(StoreG(w))
    else if op == 0x0f then Some(StoreL(Signed(w))) else if op == 0x10 then Some(AddrL(Signed(w)))
    else if op == 0x14 then Some(Call(w)) else if op == 0x16 then Some(Jmp(w))
    else if op == 0x17 then Some(Jez(w)) else if op == 0x18 then Some(Jnz(w)) else None
  }

  /** Instructions with one byte behind the opcode. A two-byte depth is read into eight bits: the second
      byte is shifted out, so only the first counts. */
  function ByteOf(op: Byte, x: Byte): Option<Instr<int>> {
    if op == 0x04 then Some(Dup(x)) else if op == 0x06 then Some(RotD(x)) else if op == 0x07 then Some(RotU(x))
    else if op == 0x13 then Some(Native(x))
    else if op == 0x2c then (match ErrorOf(x) case Some(e) => Some(Throw(e)) case None => None)
    else
      match TyOf(x)
      case None => None
      case Some(ty) => if op == 0x08 then Some(Load(ty)) else if op == 0x2b then Some(Conv(ty)) else None
  }

  /** execute's fetch at an address: the opcode, then operands by opcode and type. */
  function Decode(b: Bytes, at: nat): Option<Instr<int>> {
    if at >= |b| then None
    else
      var op := b[at];
      if op == 0x02 || op == 0x0b then DecodeTyped(b, at)
      else if op in {0x0a, 0x0e, 0x0f, 0x10, 0x14, 0x16, 0x17, 0x18} then
        match NumberAt(b, at + 1, 4)
        case Some(w) => WordOf(op, w)
        case None => None
      else if op in {0x04, 0x06, 0x07, 0x08, 0x13, 0x2b, 0x2c} then
        if at + 1 < |b| && (op in {0x04, 0x06, 0x07} ==> at + 2 < |b|) then ByteOf(op, b[at + 1]) else None
      else PlainOf(op)
  }

  /** push and loadL: a type byte, then an immediate. */
  function DecodeTyped(b: Bytes, at: nat): Option<Instr<int>>
    requires at < |b|
  {
    if at + 1 >= |b| then None
    else
      match TyOf(b[at + 1])
      case None => None
      case Some(ty) =>
        match NumberAt(b, at + 2, if b[at] == 0x02 then Width(ty) else 4)
        case None => None
        case Some(v) => Some(if b[at] == 0x02 then Push(ty, v) else LoadL(ty, Signed(ToWord(v))))
  }

  // ---------------------------------------------------------------- round trip

  /** Fetching the bytes of an instruction, wherever they stand, yields the instruction with its labels
      resolved and its immediates reduced to their width. */
  lemma {:induction false} DecodeEncode(i: Instr<Label>, labels: Labels, b: Bytes, at: nat)
    requires LabelsKnown(i, labels) && at + Size(i) <= |b| && b[at..at + Size(i)] == Encode(i, labels)
    ensures Decode(b, at) == Some(Resolve(i, labels))
  {
    hide LittleEndian, Number, Radix, PlainOf, WordOf, ByteOf, DecodeTyped, Resolve;
    var e := Encode(i, labels);
    EncodedSize(i, labels);
    assert b[at] == b[at..at + Size(i)][0] == Opcode(i);
    if i.Push? || i.PushLabel? || i.LoadL? {
      DecodeTypedEncode(i, labels, b, at);
    } else if i.LoadG? || i.StoreG? || i.StoreL? || i.AddrL? || i.Call? || i.Jmp? || i.Jez? || i.Jnz? {
      DecodeWord(i, labels, b, at);
    } else if i.Dup? || i.RotD? || i.RotU? || i.Native? || i.Throw? || i.Load? || i.Conv? {
      DecodeByte(i, labels, b, at);
    } else {
      DecodePlain(i, labels);
    }
  }

  lemma {:induction false} DecodePlain(i: Instr<Label>, labels: Labels)
    requires LabelsKnown(i, labels) && Size(i) == 1
    ensures PlainOf(Opcode(i)) == Some(Resolve(i, labels))
    ensures Opcode(i) !in {0x02, 0x0b, 0x0a, 0x0e, 0x0f, 0x10, 0x14, 0x16, 0x17, 0x18, 0x04, 0x06, 0x07, 0x08, 0x13,
      0x2b, 0x2c}
  {
  }

  lemma {:induction false} DecodeByte(i: Instr<Label>, labels: Labels, b: Bytes, at: nat)
    requires i.Dup? || i.RotD? || i.RotU? || i.Native? || i.Throw? || i.Load? || i.Conv?
    requires at + Size(i) <= |b| && b[at..at + Size(i)] == Encode(i, labels)
    ensures ByteOf(Opcode(i), b[at + 1]) == Some(Resolve(i, labels))
  {
    assert b[at + 1] == b[at..at + Size(i)][1] == Encode(i, labels)[1];
  }

  lemma {:induction false} Slice(b: Bytes, at: nat, size: nat, k: nat, n: nat)
    requires k + n <= size && at + size <= |b|
    ensures b[at + k..at + k + n] == b[at..at + size][k..k + n]
  {
    var x, y := b[at + k..at + k + n], b[at..at + size][k..k + n];
    assert forall j | 0 <= j < n :: x[j] == b[at + k + j] && y[j] == b[at..at + size][k + j];
    assert x == y;
  }

  /** The operand bytes from offset k on, read back. */
  lemma {:induction false} ReadBack(b: Bytes, at: nat, e: Bytes, k: nat, v: int, n: nat)
    requires k + n <= |e| && at + |e| <= |b| && b[at..at + |e|] == e && e[k..k + n] == LittleEndian(v, n)
    ensures NumberAt(b, at + k, n) == Some(v % Radix(n))
  {
    hide LittleEndian, Number, Radix;
    NumberOfLittleEndian(v, n);
    Slice(b, at, |e|, k, n);
  }

  lemma {:induction false} DecodeWord(i: Instr<Label>, labels: Labels, b: Bytes, at: nat)
    requires i.LoadG? || i.StoreG? || i.StoreL? || i.AddrL? || i.Call? || i.Jmp? || i.Jez? || i.Jnz?
    requires LabelsKnown(i, labels) && at + Size(i) <= |b| && b[at..at + Size(i)] == Encode(i, labels)
    ensures NumberAt(b, at + 1, 4).Some? && WordOf(Opcode(i), NumberAt(b, at + 1, 4).value) == Some(Resolve(i, labels))
  {
    hide LittleEndian, Number;
    var e, v := Encode(i, labels), if i.StoreL? || i.AddrL? then i.offset else labels[i.target];
    Radices();
    assert e[1..5] == LittleEndian(v, 4);
    ReadBack(b, at, e, 1, v, 4);
  }

  lemma {:induction false} DecodeTypedEncode(i: Instr<Label>, labels: Labels, b: Bytes, at: nat)
    requires i.Push? || i.PushLabel? || i.LoadL?
    requires LabelsKnown(i, labels) && at + Size(i) <= |b| && b[at..at + Size(i)] == Encode(i, labels)
    ensures DecodeTyped(b, at) == Some(Resolve(i, labels))
  {
    hide LittleEndian, Number, Radix, TyByte, TyOf, DecodeTyped;
    var e := Encode(i, labels);
    var ty := if i.PushLabel? then PTR else i.ty;
    var v := if i.Push? then i.imm else if i.PushLabel? then labels[i.target] else i.offset;
    var n := if i.Push? then Width(ty) else 4;
    Radices();
    assert e == [Opcode(i), TyByte(ty)] + LittleEndian(v, n);
    DecodeTypedBytes(b, at, e, ty, v, n);
  }

  /** An opcode, a type byte and an immediate, read back. */
  lemma {:induction false} DecodeTypedBytes(b: Bytes, at: nat, e: Bytes, ty: Ty, v: int, n: nat)
    requires |e| > 0 && (e[0] == 0x02 || e[0] == 0x0b) && n == (if e[0] == 0x02 then Width(ty) else 4)
    requires e == [e[0], TyByte(ty)] + LittleEndian(v, n) && at + |e| <= |b| && b[at..at + |e|] == e
    ensures var w := v % Radix(n);
      DecodeTyped(b, at) == Some(if e[0] == 0x02 then Push(ty, w) else LoadL(ty, Signed(ToWord(w))))
  {
    hide LittleEndian, Number, Radix, TyByte, TyOf;
    TyRoundTrip(ty);
    assert b[at] == b[at..at + |e|][0] && b[at + 1] == b[at..at + |e|][1];
    assert e[2..2 + n] == LittleEndian(v, n);
    ReadBack(b, at, e, 2, v, n);
  }

  lemma {:induction false} TyRoundTrip(ty: Ty)
    ensures TyOf(TyByte(ty)) == Some(ty)
  {
  }
}
