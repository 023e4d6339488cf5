/** Fetching from the pages: what the VM reads at an address of the code region, and when that is the
    instruction or the method header whose bytes stand there. */
module Fetching {
  import opened Words
  import opened Isa
  import opened Source
  import opened FlatMemory
  import opened Encoding
  import opened Pages
  import opened Accesses
  import Machine

  /** The bytes stand in memory from address 0 on. */
  ghost predicate Stored(m: Mem, b: Bytes) {
    forall a | 0 <= a < |b| :: Get(m, a) == b[a]
  }

  function CodeByte(m: Mem, dataStart: int, a: int): Option<Byte> {
    if 0 <= a < dataStart then Some(Get(m, a)) else None
  }

  /** fetchOperand: only the first byte is checked to be code. */
  function CodeNumber(m: Mem, dataStart: int, a: int, n: nat): Option<int> {
    if 0 <= a < dataStart then Some(PagedRead(m, a, n)) else None
  }

  /** execute's fetch at an address, as Decode does it on a list of bytes. */
  function FetchInstruction(m: Mem, dataStart: int, at: int): Option<Instr<int>> {
    match CodeByte(m, dataStart, at)
    case None => None
    case Some(op) =>
      if op == 0x02 || op == 0x0b then FetchTyped(m, dataStart, at, op)
      else if op in {0x0a, 0x0e, 0x0f, 0x10, 0x14, 0x16, 0x17, 0x18} then
        match CodeNumber(m, dataStart, at + 1, 4)
        case Some(w) => WordOf(op, w)
        case None => None
      else if op in {0x04, 0x06, 0x07, 0x08, 0x13, 0x2b, 0x2c} then
        if at + 1 < dataStart && (op in {0x04, 0x06, 0x07} ==> at + 2 < dataStart) then ByteOf(op, Get(m, at + 1))
        else None
      else PlainOf(op)
  }

  function FetchTyped(m: Mem, dataStart: int, at: int, op: Byte): Option<Instr<int>> {
    match CodeByte(m, dataStart, at + 1)
    case None => None
    case Some(b) =>
      match TyOf(b)
      case None => None
      case Some(ty) =>
        match CodeNumber(m, dataStart, at + 2, if op == 0x02 then Width(ty) else 4)
        case None => None
        case Some(v) => Some(if op == 0x02 then Push(ty, v) else LoadL(ty, Signed(ToWord(v))))
  }

  /** The header a call reads. */
  function FetchHeader(m: Mem, dataStart: int, a: int): Option<Machine.Header> {
    match CodeByte(m, dataStart, a)
    case None => None
    case Some(args) =>
      match CodeNumber(m, dataStart, a + 1, 4)
      case None => None
      case Some(locals) => Some(Machine.Header(args, locals))
  }

  // ---------------------------------------------------------------- against the list of bytes

  lemma {:induction false} LowByteOfRead(m: Mem, a: int, n: nat)
    requires n > 0
    ensures FlatRead(m, a, n) == Get(m, a) + 256 * FlatRead(m, a + 1, n - 1)
    decreases n
  {
    hide Get;
    if n > 1 {
      LowByteOfRead(m, a, n - 1);
      var r, x := Radix(n - 2), Get(m, a + n - 1);
      assert Radix(n - 1) == 256 * r && 256 * (r * x) == 256 * r * x;
      assert a + 1 + (n - 1) - 1 == a + n - 1;
    }
  }

  lemma {:induction false} NumberIsRead(m: Mem, b: Bytes, a: nat, n: nat)
    requires Stored(m, b) && a + n <= |b|
    ensures Number(b[a..a + n]) == FlatRead(m, a, n)
    decreases n
  {
    hide Get;
    if n > 0 {
      NumberIsRead(m, b, a + 1, n - 1);
      LowByteOfRead(m, a, n);
      assert b[a..a + n][1..] == b[a + 1..a + 1 + (n - 1)];
    }
  }

  /** The number in the code, on pages and on the list of bytes. */
  lemma {:induction false} NumberExact(m: Mem, b: Bytes, a: nat, n: nat)
    requires Stored(m, b) && a + n <= |b| && 0 < n
    ensures CodeNumber(m, |b|, a, n) == NumberAt(b, a, n) <==> SameHere(m, a, n)
    ensures 0 <= CodeNumber(m, |b|, a, n).value < Radix(n) && 0 <= NumberAt(b, a, n).value < Radix(n)
    ensures CodeNumber(m, |b|, a, n).Some?
  {
    hide Get, Radix, PagedRead, FlatRead, Number;
    NumberIsRead(m, b, a, n);
    SameBytes(m, a, n);
    ReadsBounded(m, a, n);
  }

  /** The bytes a read gets are the bytes that follow its address. */
  ghost predicate SameHere(m: Mem, a: int, n: nat) {
    forall j: nat | j < n :: Get(m, Wrapped(a, j)) == Get(m, a + j)
  }

  /** In one page they always are. */
  lemma {:induction false} InPageSameHere(m: Mem, a: int, n: nat)
    requires InOnePage(a, n)
    ensures SameHere(m, a, n)
  {
    forall j: nat | j < n
      ensures Wrapped(a, j) == a + j
    {
      WrappedInPage(a, j, n);
    }
  }

  /** The VM fetches the instruction that stands in the code if and only if the bytes it wraps around to when
      reading the immediate or label are those it should have read; in one page they are. */
  lemma {:induction false} FetchExact(m: Mem, b: Bytes, at: nat)
    requires Stored(m, b) && Decode(b, at).Some?
    ensures var i := Decode(b, at).value;
      && (FetchInstruction(m, |b|, at) == Decode(b, at) <==> SameHere(m, at + OperandOffset(i), OperandWidth(i)))
      && (FetchInPage(at, i) ==> SameHere(m, at + OperandOffset(i), OperandWidth(i)))
  {
    hide Get, Number, PagedRead, SameHere, Wrapped, PlainOf, ByteOf, WordOf, DecodeTyped, FetchTyped;
    var i := Decode(b, at).value;
    if FetchInPage(at, i) {
      InPageSameHere(m, at + OperandOffset(i), OperandWidth(i));
    }
    assert Get(m, at) == b[at];
    if b[at] == 0x02 || b[at] == 0x0b {
      TypedExact(m, b, at);
    } else if b[at] in {0x0a, 0x0e, 0x0f, 0x10, 0x14, 0x16, 0x17, 0x18} {
      WordExact(m, b, at);
    } else {
      PlainExact(m, b, at);
    }
  }

  lemma {:induction false} WordExact(m: Mem, b: Bytes, at: nat)
    requires Stored(m, b) && Decode(b, at).Some? && b[at] in {0x0a, 0x0e, 0x0f, 0x10, 0x14, 0x16, 0x17, 0x18}
    ensures var i := Decode(b, at).value;
      OperandOffset(i) == 1 && OperandWidth(i) == 4
        && (FetchInstruction(m, |b|, at) == Decode(b, at) <==> SameHere(m, at + 1, 4))
  {
    hide Get, Number, PagedRead, SameHere, Wrapped;
    assert Get(m, at) == b[at];
    NumberExact(m, b, at + 1, 4);
    Radices();
  }

  lemma {:induction false} TypedExact(m: Mem, b: Bytes, at: nat)
    requires Stored(m, b) && Decode(b, at).Some? && (b[at] == 0x02 || b[at] == 0x0b)
    ensures var i := Decode(b, at).value;
      FetchInstruction(m, |b|, at) == Decode(b, at) <==> SameHere(m, at + OperandOffset(i), OperandWidth(i))
  {
    hide Get, Number, PagedRead, SameHere, Wrapped, Width;
    assert Get(m, at) == b[at] && Get(m, at + 1) == b[at + 1];
    var n := OperandWidth(Decode(b, at).value);
    NumberExact(m, b, at + 2, n);
    Radices();
  }

  /** Without an immediate or label nothing can go wrong. */
  lemma {:induction false} PlainExact(m: Mem, b: Bytes, at: nat)
    requires Stored(m, b) && Decode(b, at).Some?
    requires b[at] !in {0x02, 0x0b, 0x0a, 0x0e, 0x0f, 0x10, 0x14, 0x16, 0x17, 0x18}
    ensures FetchInstruction(m, |b|, at) == Decode(b, at) && OperandWidth(Decode(b, at).value) == 0
    ensures SameHere(m, at + OperandOffset(Decode(b, at).value), 0)
  {
    hide Get, Number, PagedRead, Wrapped;
    assert Get(m, at) == b[at];
    assert at + 1 < |b| ==> Get(m, at + 1) == b[at + 1];
  }

  /** The same for the word with the number of locals in a method header. */
  lemma {:induction false} HeaderExact(m: Mem, b: Bytes, a: nat)
    requires Stored(m, b) && a + 5 <= |b|
    ensures FetchHeader(m, |b|, a) == Some(Machine.Header(b[a], Number(b[a + 1..a + 5]))) <==> SameHere(m, a + 1, 4)
    ensures InOnePage(a + 1, 4) ==> SameHere(m, a + 1, 4)
  {
    hide Get, Number, PagedRead, SameHere, Wrapped;
    assert Get(m, a) == b[a];
    NumberExact(m, b, a + 1, 4);
    if InOnePage(a + 1, 4) {
      InPageSameHere(m, a + 1, 4);
    }
  }
}
