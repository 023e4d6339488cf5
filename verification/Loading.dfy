/** The bytes of an assembled program in the VM: label addresses are byte offsets, and every fetch whose operand
    stays in its page yields the instruction that was assembled. */
module Loading {
  import opened Words
  import opened Isa
  import opened Source
  import opened FlatMemory
  import opened Encoding
  import opened Assembler
  import opened Pages
  import opened Accesses
  import opened Fetching
  import Machine
  import opened Cursor

  /** All code before all data, as the .data directive separates them. */
  predicate Sectioned(ss: seq<Statement>) {
    forall i, j | 0 <= i < j < |ss| :: ss[j].Code? ==> ss[i].Code?
  }

  predicate AllKnown(ss: seq<Statement>, labels: Labels) {
    forall i | 0 <= i < |ss| :: Known(ss[i], labels)
  }

  // ---------------------------------------------------------------- offsets

  lemma {:induction false} BodyLength(ss: seq<Statement>, labels: Labels)
    requires AllKnown(ss, labels)
    ensures |Body(ss, labels)| == CodeLen(ss) + DataLen(ss)
  {
    if ss != [] {
      BodyLength(ss[..|ss| - 1], labels);
    }
  }

  /** Statement k occupies its bytes right behind those of the statements before it. */
  lemma {:induction false} BodyAt(ss: seq<Statement>, labels: Labels, k: nat)
    requires AllKnown(ss, labels) && k < |ss|
    ensures var at := |Body(ss[..k], labels)|;
      at + StatementSize(ss[k]) <= |Body(ss, labels)|
        && Body(ss, labels)[at..at + StatementSize(ss[k])] == EncodeStatement(ss[k], labels)
    decreases |ss|
  {
    hide EncodeStatement;
    var n := |ss| - 1;
    if k < n {
      BodyAt(ss[..n], labels, k);
      assert ss[..n][..k] == ss[..k];
    } else {
      var front, last := Body(ss[..n], labels), EncodeStatement(ss[n], labels);
      assert (front + last)[|front|..|front| + |last|] == last;
    }
  }

  lemma {:induction false} NoDataBefore(ss: seq<Statement>, k: nat)
    requires Sectioned(ss) && k <= |ss| && (k == |ss| || ss[k].Code?)
    ensures k < |ss| ==> DataLen(ss[..k]) == 0 && CountedLen(ss[..k]) == 0
    decreases k
  {
    if 0 < k < |ss| {
      NoDataBefore(ss, k - 1);
      assert ss[..k][..k - 1] == ss[..k - 1];
    }
  }

  lemma {:induction false} CodeBeforeData(ss: seq<Statement>, k: nat)
    requires Sectioned(ss) && k < |ss| && ss[k].Data?
    ensures CodeLen(ss[..k]) == CodeLen(ss)
    decreases |ss| - k
  {
    if k + 1 == |ss| {
      assert ss[..k] == ss[..|ss| - 1];
    } else {
      assert ss[k + 1].Data?;
      CodeBeforeData(ss, k + 1);
      assert ss[..k + 1][..k] == ss[..k];
    }
  }

  /** The first pass enters every definition at its location, and later statements do not disturb it. */
  lemma {:induction false} TableEntry(ss: seq<Statement>, k: nat)
    requires NoRedefinition(ss) && k < |ss| && DefOf(ss[k]).Some?
    ensures DefOf(ss[k]).value in Table(ss) && Table(ss)[DefOf(ss[k]).value] == Location(ss[..k], ss[k])
    decreases |ss|
  {
    var n := |ss| - 1;
    if k < n {
      TableEntry(ss[..n], k);
      assert ss[..n][..k] == ss[..k];
    }
  }

  /** Pass one and pass two agree: a code or method label is the offset of its target among the bytes
      behind the header, a data label the offset of the value behind the type byte. For data this needs the
      data sizes before it to have been counted right. */
  lemma {:induction false} LabelIsOffset(ss: seq<Statement>, k: nat)
    requires Sectioned(ss) && NoRedefinition(ss) && AllKnown(ss, Table(ss)) && k < |ss| && DefOf(ss[k]).Some?
    ensures DefOf(ss[k]).value in Table(ss)
    ensures var offset := |Body(ss[..k], Table(ss))|;
      Table(ss)[DefOf(ss[k]).value] == offset + (if ss[k].Data? then 1 else 0) <==>
        CountedLen(ss[..k]) == DataLen(ss[..k])
  {
    TableEntry(ss, k);
    BodyLength(ss[..k], Table(ss));
    if ss[k].Code? {
      NoDataBefore(ss, k);
    }
  }

  /** The uint8_t count is right exactly while no text is longer than 250 bytes. */
  lemma {:induction false} CountExact(ss: seq<Statement>)
    ensures CountedLen(ss) <= DataLen(ss)
    ensures CountedLen(ss) == DataLen(ss) <==> forall i | 0 <= i < |ss| ::
      ss[i].Data? && ss[i].datum.Text? ==> |ss[i].datum.chars| <= 250
  {
    if ss != [] {
      var n := |ss| - 1;
      CountExact(ss[..n]);
      assert forall i | 0 <= i < n :: ss[..n][i] == ss[i];
    }
  }

  // ---------------------------------------------------------------- the loader

  function WordAt(b: Bytes, at: nat): int
    requires at + 4 <= |b|
  {
    Number(b[at..at + 4])
  }

  /** What readBytecode sets up: memory from address 0, the start of the data region and the heap base. */
  datatype Loaded = Loaded(mem: Mem, code: Bytes, dataStart: int, hb: int)

  function Region(b: Bytes): Mem {
    map a | 0 <= a < |b| :: b[a]
  }

  function ReadBytecode(b: Bytes): Option<Loaded> {
    if |b| < HEADER_SIZE then None
    else
      var codeEnd, dataEnd := WordAt(b, 0), WordAt(b, 4);
      if HEADER_SIZE - 1 <= codeEnd <= dataEnd < |b| then
        Some(Loaded(Region(b[HEADER_SIZE..dataEnd + 1]), b[HEADER_SIZE..codeEnd + 1],
                    codeEnd + 1 - HEADER_SIZE, dataEnd + 1 - HEADER_SIZE))
      else None
  }

  /** The code region as the VM reads it: instructions where they decode, method headers anywhere. */
  function CodeOf(code: Bytes): Machine.Code {
    Machine.Code(map a: nat | a < |code| && Decode(code, a).Some? :: Decode(code, a).value,
                 map a: nat | a + 5 <= |code| :: Machine.Header(code[a], Number(code[a + 1..a + 5])))
  }

  lemma {:induction false} HeaderWords(codeEnd: int, dataEnd: int, rest: Bytes)
    requires 0 <= codeEnd < W32 && 0 <= dataEnd < W32
    ensures var b := HeaderBytes(codeEnd, dataEnd) + rest;
      |b| >= HEADER_SIZE && WordAt(b, 0) == codeEnd && WordAt(b, 4) == dataEnd
    ensures |HeaderBytes(codeEnd, dataEnd)| == HEADER_SIZE
  {
    hide LittleEndian, Number, Radix;
    var b, w, v := HeaderBytes(codeEnd, dataEnd) + rest, LittleEndian(codeEnd, 4), LittleEndian(dataEnd, 4);
    NumberOfLittleEndian(codeEnd, 4);
    NumberOfLittleEndian(dataEnd, 4);
    Radices();
    assert b[0..4] == w;
    assert b == w + (v + (v + v + v + rest));
    assert b[4..8] == v;
  }

  /** The bytes of an assembled program. */
  function Assembly(ss: seq<Statement>): Bytes
    requires AllKnown(ss, Table(ss))
  {
    HeaderBytes(HEADER_SIZE + CodeLen(ss) - 1, HEADER_SIZE + CodeLen(ss) + CountedLen(ss) - 1) + Body(ss, Table(ss))
  }

  /** Loading assembled bytes gives back the code section, the data section and their boundaries. */
  lemma {:induction false} LoadAssembled(ss: seq<Statement>, labels: Labels)
    requires AllKnown(ss, labels) && CountedLen(ss) == DataLen(ss) && CodeLen(ss) + DataLen(ss) + HEADER_SIZE < W32
    ensures var b := HeaderBytes(HEADER_SIZE + CodeLen(ss) - 1, HEADER_SIZE + CodeLen(ss) + CountedLen(ss) - 1)
        + Body(ss, labels);
      && (labels == Table(ss) ==> b == Assembly(ss))
      && ReadBytecode(b).Some?
      && var l := ReadBytecode(b).value;
         l.dataStart == CodeLen(ss) && l.hb == CodeLen(ss) + DataLen(ss) && l.code == Body(ss, labels)[..CodeLen(ss)]
         && forall a | 0 <= a < l.hb :: Get(l.mem, a) == Body(ss, labels)[a]
  {
    hide HeaderBytes, Number, Body;
    var codeEnd, dataEnd := HEADER_SIZE + CodeLen(ss) - 1, HEADER_SIZE + CodeLen(ss) + CountedLen(ss) - 1;
    var h, body := HeaderBytes(codeEnd, dataEnd), Body(ss, labels);
    BodyLength(ss, labels);
    HeaderWords(codeEnd, dataEnd, body);
    assert (h + body)[HEADER_SIZE..codeEnd + 1] == body[..CodeLen(ss)];
    assert (h + body)[HEADER_SIZE..dataEnd + 1] == body;
  }

  // ---------------------------------------------------------------- fetching

  /** Fetching at the offset of an instruction yields that instruction, and calling at the offset of a method
      definition reads its argument and local counts. */
  lemma {:induction false} FetchAgrees(ss: seq<Statement>, labels: Labels, k: nat)
    requires Sectioned(ss) && AllKnown(ss, labels) && k < |ss| && ss[k].Code?
    ensures |Body(ss, labels)| == CodeLen(ss) + DataLen(ss)
    ensures var code, at := CodeOf(Body(ss, labels)[..CodeLen(ss)]), CodeLen(ss[..k]);
      && (ss[k].item.Instruction? ==>
            LabelsKnown(ss[k].item.i, labels) && at in code.ops && code.ops[at] == Resolve(ss[k].item.i, labels))
      && (ss[k].item.MethodDef? ==>
            at in code.headers && code.headers[at] == Machine.Header(ss[k].item.args, ss[k].item.locals % W32))
  {
    hide LittleEndian, Number, Decode, Encode, Resolve, Radix, Body;
    var body, at, s := Body(ss, labels), CodeLen(ss[..k]), ss[k];
    BodyLength(ss, labels);
    BodyLength(ss[..k], labels);
    NoDataBefore(ss, k);
    BodyAt(ss, labels, k);
    CodeLenUpTo(ss, k);
    var code := body[..CodeLen(ss)];
    assert code[at..at + ItemSize(s.item)] == body[at..at + ItemSize(s.item)];
    if s.item.Instruction? {
      DecodeEncode(s.item.i, labels, code, at);
      InstructionFits(code, at, s.item.i);
    } else if s.item.MethodDef? {
      var e := EncodeStatement(s, labels);
      NumberOfLittleEndian(s.item.locals, 4);
      Radices();
      assert e[1..5] == LittleEndian(s.item.locals, 4);
      Slice(code, at, 5, 1, 4);
      assert code[at..at + 5][0] == code[at];
    }
  }

  lemma {:induction false} InstructionFits<L>(code: Bytes, at: nat, i: Instr<L>)
    requires at + Size(i) <= |code|
    ensures at < |code|
  {
  }

  lemma {:induction false} CodeLenUpTo(ss: seq<Statement>, k: nat)
    requires k < |ss| && ss[k].Code?
    ensures CodeLen(ss[..k]) + ItemSize(ss[k].item) == CodeLen(ss[..k + 1]) <= CodeLen(ss)
    decreases |ss|
  {
    var n := |ss| - 1;
    if k < n {
      CodeLenUpTo(ss[..n], k);
      assert ss[..n][..k] == ss[..k] && ss[..n][..k + 1] == ss[..k + 1];
    } else {
      assert ss[..k + 1] == ss;
    }
  }

  // ---------------------------------------------------------------- fetching from pages

  /** What the VM reads as one number from the code of a statement stays in its page: the immediate or label
      of an instruction, the number of locals of a method. */
  predicate StatementInPages(at: int, s: Statement) {
    match s
    case Code(Instruction(i)) => FetchInPage(at, i)
    case Code(MethodDef(_, _, _)) => InOnePage(at + 1, 4)
    case _ => true
  }

  predicate CodeInPages(ss: seq<Statement>) {
    forall k | 0 <= k < |ss| :: StatementInPages(CodeLen(ss[..k]), ss[k])
  }

  /** Up to one page of code there is no page end to cross. */
  lemma {:induction false} ShortCodeInPages(ss: seq<Statement>)
    requires CodeLen(ss) <= PAGE_SIZE
    ensures CodeInPages(ss)
  {
    hide CodeLen, Size;
    forall k | 0 <= k < |ss|
      ensures StatementInPages(CodeLen(ss[..k]), ss[k])
    {
      if ss[k].Code? {
        CodeLenUpTo(ss, k);
        FitsInPage(CodeLen(ss[..k]), ss[k]);
      }
    }
  }

  lemma {:induction false} FitsInPage(at: nat, s: Statement)
    requires s.Code? && at + ItemSize(s.item) <= PAGE_SIZE
    ensures StatementInPages(at, s)
  {
  }

  /** On pages the VM fetches the instruction that was assembled, and a call reads the header of its method, if
      and only if the bytes the read wraps around to are those behind the page end; a read that stays in its
      page always gets them. */
  lemma {:induction false} FetchOnPages(ss: seq<Statement>, labels: Labels, m: Mem, k: nat)
    requires Sectioned(ss) && AllKnown(ss, labels) && k < |ss| && ss[k].Code?
    requires |Body(ss, labels)| >= CodeLen(ss) && Stored(m, Body(ss, labels)[..CodeLen(ss)])
    ensures var at, dataStart := CodeLen(ss[..k]), CodeLen(ss);
      match ss[k].item
      case Instruction(i) =>
        && LabelsKnown(i, labels)
        && (FetchInstruction(m, dataStart, at) == Some(Resolve(i, labels)) <==>
              SameHere(m, at + OperandOffset(i), OperandWidth(i)))
        && (StatementInPages(at, ss[k]) ==> SameHere(m, at + OperandOffset(i), OperandWidth(i)))
      case MethodDef(_, args, locals) =>
        && (FetchHeader(m, dataStart, at) == Some(Machine.Header(args, locals % W32)) <==> SameHere(m, at + 1, 4))
        && (StatementInPages(at, ss[k]) ==> SameHere(m, at + 1, 4))
      case LabelDef(_) => true
  {
    hide Decode, FetchInstruction, FetchHeader, Resolve, SameHere, Stored, LabelsKnown, InOnePage, Number, Body,
      Sectioned, CodeLen;
    match ss[k].item
    case Instruction(i) => InstructionOnPages(ss, labels, m, k);
    case MethodDef(_, _, _) => HeaderOnPages(ss, labels, m, k);
    case LabelDef(_) =>
  }

  lemma {:induction false} InstructionOnPages(ss: seq<Statement>, labels: Labels, m: Mem, k: nat)
    requires Sectioned(ss) && AllKnown(ss, labels) && k < |ss| && ss[k].Code? && ss[k].item.Instruction?
    requires |Body(ss, labels)| >= CodeLen(ss) && Stored(m, Body(ss, labels)[..CodeLen(ss)])
    ensures var at, i := CodeLen(ss[..k]), ss[k].item.i;
      && LabelsKnown(i, labels)
      && (FetchInstruction(m, CodeLen(ss), at) == Some(Resolve(i, labels)) <==>
            SameHere(m, at + OperandOffset(i), OperandWidth(i)))
      && (FetchInPage(at, i) ==> SameHere(m, at + OperandOffset(i), OperandWidth(i)))
  {
    hide Decode, FetchInstruction, Resolve, SameHere, Stored, LabelsKnown, InOnePage, Number, Body, Sectioned,
      CodeLen;
    var code, at, i := Body(ss, labels)[..CodeLen(ss)], CodeLen(ss[..k]), ss[k].item.i;
    FetchAgrees(ss, labels, k);
    assert Decode(code, at) == Some(Resolve(i, labels));
    FetchExact(m, code, at);
    SameFetch(at, i, labels);
    SameOperand(i, labels);
  }

  lemma {:induction false} HeaderOnPages(ss: seq<Statement>, labels: Labels, m: Mem, k: nat)
    requires Sectioned(ss) && AllKnown(ss, labels) && k < |ss| && ss[k].Code? && ss[k].item.MethodDef?
    requires |Body(ss, labels)| >= CodeLen(ss) && Stored(m, Body(ss, labels)[..CodeLen(ss)])
    ensures var at := CodeLen(ss[..k]);
      && (FetchHeader(m, CodeLen(ss), at) == Some(Machine.Header(ss[k].item.args, ss[k].item.locals % W32)) <==>
            SameHere(m, at + 1, 4))
      && (InOnePage(at + 1, 4) ==> SameHere(m, at + 1, 4))
  {
    hide Decode, FetchHeader, Resolve, SameHere, Stored, LabelsKnown, InOnePage, Number, Body, Sectioned,
      CodeLen;
    FetchAgrees(ss, labels, k);
    HeaderExact(m, Body(ss, labels)[..CodeLen(ss)], CodeLen(ss[..k]));
  }

  lemma {:induction false} SameOperand(i: Instr<Label>, labels: Labels)
    requires LabelsKnown(i, labels)
    ensures OperandOffset(Resolve(i, labels)) == OperandOffset(i)
    ensures OperandWidth(Resolve(i, labels)) == OperandWidth(i)
  {
    hide ToWord, Signed;
  }
}
