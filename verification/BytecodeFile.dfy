/** The whole bytecode file: header, code, data and the three sections of metadata, as the assembler writes it and
    the VM reads it back. */
module BytecodeFile {
  import opened Words
  import opened Isa
  import opened Source
  import opened Encoding
  import opened Assembler
  import opened Loading
  import opened DebugMap

  datatype SourceEntry = SourceEntry(id: int, path: Bytes)

  datatype FunctionEntry = FunctionEntry(start: int, end: int, source: int, name: Bytes)

  datatype Metadata = Metadata(sources: seq<SourceEntry>, functions: seq<FunctionEntry>, lines: LineTable)

  predicate StorableSource(e: SourceEntry) {
    0 <= e.id < 0x1_0000 && |e.path| < W32
  }

  predicate StorableFunction(e: FunctionEntry) {
    IsWord(e.start) && IsWord(e.end) && 0 <= e.source < 0x1_0000 && |e.name| < W32
  }

  predicate StorableMetadata(m: Metadata) {
    && (forall i | 0 <= i < |m.sources| :: StorableSource(m.sources[i]))
    && (forall i | 0 <= i < |m.functions| :: StorableFunction(m.functions[i]))
    && (forall i | 0 <= i < |m.lines| :: Storable(m.lines[i]))
  }

  // ---------------------------------------------------------------- bytes

  function TextBytes(text: Bytes): (b: Bytes)
    ensures |b| == 4 + |text|
  {
    LittleEndian(|text|, 4) + text
  }

  /** convertSourceMetadata. */
  function SourceBytes(e: SourceEntry): (b: Bytes)
    ensures |b| == 6 + |e.path|
  {
    LittleEndian(e.id, 2) + TextBytes(e.path)
  }

  /** convertFunctionMetadata. */
  function FunctionBytes(e: FunctionEntry): (b: Bytes)
    ensures |b| == 14 + |e.name|
  {
    LittleEndian(e.start, 4) + LittleEndian(e.end, 4) + LittleEndian(e.source, 2) + TextBytes(e.name)
  }

  function SourcesBytes(es: seq<SourceEntry>): Bytes {
    if es == [] then [] else SourcesBytes(es[..|es| - 1]) + SourceBytes(es[|es| - 1])
  }

  function FunctionsBytes(es: seq<FunctionEntry>): Bytes {
    if es == [] then [] else FunctionsBytes(es[..|es| - 1]) + FunctionBytes(es[|es| - 1])
  }

  function MetadataBytes(m: Metadata): Bytes {
    SourcesBytes(m.sources) + FunctionsBytes(m.functions) + EncodeTable(m.lines)
  }

  /** Indices of the last bytes of code and data, and then of the three sections. */
  function FileHeader(codeEnd: int, dataEnd: int, sourceEnd: int, functionEnd: int, lineEnd: int): (b: Bytes)
    ensures |b| == HEADER_SIZE
  {
    LittleEndian(codeEnd, 4) + LittleEndian(dataEnd, 4) + LittleEndian(sourceEnd, 4) + LittleEndian(functionEnd, 4)
      + LittleEndian(lineEnd, 4)
  }

  function FileBytes(ss: seq<Statement>, m: Metadata): Bytes
    requires AllKnown(ss, Table(ss))
  {
    var codeEnd, dataEnd := HEADER_SIZE + CodeLen(ss) - 1, HEADER_SIZE + CodeLen(ss) + CountedLen(ss) - 1;
    var sourceEnd := dataEnd + |SourcesBytes(m.sources)|;
    var functionEnd := sourceEnd + |FunctionsBytes(m.functions)|;
    FileHeader(codeEnd, dataEnd, sourceEnd, functionEnd, functionEnd + |EncodeTable(m.lines)|)
      + (Body(ss, Table(ss)) + MetadataBytes(m))
  }

  // ---------------------------------------------------------------- writing

  /** generateBytecode from the metadata statements on: the sections are appended and measured one entry after the
      other, and at the end their ends are written over the last three numbers of the header. */
  class MetadataWriter {
    var sourceMetadataLength: nat
    var functionMetadataLength: nat
    var lineTableMetadataLength: nat

    constructor ()
      ensures sourceMetadataLength == 0 && functionMetadataLength == 0 && lineTableMetadataLength == 0
    {
      sourceMetadataLength, functionMetadataLength, lineTableMetadataLength := 0, 0, 0;
    }

    method ConvertSourceMetadata(e: SourceEntry) returns (b: Bytes)
      modifies this`sourceMetadataLength
      ensures b == SourceBytes(e) && sourceMetadataLength == old(sourceMetadataLength) + |b|
    {
      b := SourceBytes(e);
      sourceMetadataLength := sourceMetadataLength + 2;
      sourceMetadataLength := sourceMetadataLength + (4 + |e.path|);
    }

    method ConvertFunctionMetadata(e: FunctionEntry) returns (b: Bytes)
      modifies this`functionMetadataLength
      ensures b == FunctionBytes(e) && functionMetadataLength == old(functionMetadataLength) + |b|
    {
      b := FunctionBytes(e);
      functionMetadataLength := functionMetadataLength + (14 + |e.name|);
    }

    method ConvertLineTableMetadata(e: Entry<Position>) returns (b: Bytes)
      modifies this`lineTableMetadataLength
      ensures b == EncodeEntry(e) && lineTableMetadataLength == old(lineTableMetadataLength) + |b|
    {
      b := EncodeEntry(e);
      lineTableMetadataLength := lineTableMetadataLength + 16;
    }

    /** Four bytes of the header, one after the other. */
    method Patch(bytecode: Bytes, at: nat, v: int) returns (r: Bytes)
      requires at + 4 <= |bytecode|
      ensures r == bytecode[..at] + LittleEndian(v, 4) + bytecode[at + 4..]
    {
      r := bytecode;
      for i := 0 to 4
        invariant |r| == |bytecode| && r == bytecode[..at] + LittleEndian(v, i) + bytecode[at + i..]
      {
        LittleEndianNext(v, i);
        var next := r[at + i := v / Radix(i) % 256];
        assert next == bytecode[..at] + (LittleEndian(v, i) + [v / Radix(i) % 256]) + bytecode[at + i + 1..];
        r := next;
      }
    }

    method AppendSources(es: seq<SourceEntry>) returns (r: Bytes)
      requires sourceMetadataLength == 0
      modifies this`sourceMetadataLength
      ensures r == SourcesBytes(es) && sourceMetadataLength == |r|
    {
      hide SourceBytes;
      r := [];
      for k := 0 to |es|
        invariant r == SourcesBytes(es[..k]) && sourceMetadataLength == |r|
      {
        var b := ConvertSourceMetadata(es[k]);
        assert es[..k + 1][..k] == es[..k];
        r := r + b;
      }
      assert es[..|es|] == es;
    }

    method AppendFunctions(es: seq<FunctionEntry>) returns (r: Bytes)
      requires functionMetadataLength == 0
      modifies this`functionMetadataLength
      ensures r == FunctionsBytes(es) && functionMetadataLength == |r|
    {
      hide FunctionBytes;
      r := [];
      for k := 0 to |es|
        invariant r == FunctionsBytes(es[..k]) && functionMetadataLength == |r|
      {
        var b := ConvertFunctionMetadata(es[k]);
        assert es[..k + 1][..k] == es[..k];
        r := r + b;
      }
      assert es[..|es|] == es;
    }

    method AppendLines(es: LineTable) returns (r: Bytes)
      requires lineTableMetadataLength == 0
      modifies this`lineTableMetadataLength
      ensures r == EncodeTable(es) && lineTableMetadataLength == |r|
    {
      hide EncodeEntry;
      r := [];
      for k := 0 to |es|
        invariant r == EncodeTable(es[..k]) && lineTableMetadataLength == |r|
      {
        var b := ConvertLineTableMetadata(es[k]);
        assert es[..k + 1][..k] == es[..k];
        r := r + b;
      }
      assert es[..|es|] == es;
    }

    method AppendMetadata(bytecode: Bytes, codeEnd: int, dataEnd: int, body: Bytes, m: Metadata) returns (r: Bytes)
      requires bytecode == HeaderBytes(codeEnd, dataEnd) + body
      requires sourceMetadataLength == 0 && functionMetadataLength == 0 && lineTableMetadataLength == 0
      modifies this
      ensures var sourceEnd := dataEnd + |SourcesBytes(m.sources)|;
        var functionEnd := sourceEnd + |FunctionsBytes(m.functions)|;
        r == FileHeader(codeEnd, dataEnd, sourceEnd, functionEnd, functionEnd + |EncodeTable(m.lines)|)
          + (body + MetadataBytes(m))
    {
      hide LittleEndian, HeaderBytes, FileHeader, SourcesBytes, FunctionsBytes, EncodeTable;
      var sources := AppendSources(m.sources);
      var functions := AppendFunctions(m.functions);
      var lines := AppendLines(m.lines);
      r := bytecode + sources + functions + lines;
      ghost var head := HeaderBytes(codeEnd, dataEnd);
      SectionsJoined(head, body, sources, functions, lines);
      assert MetadataBytes(m) == sources + functions + lines;
      r := Patch(r, 8, sourceMetadataLength + dataEnd);
      r := Patch(r, 12, functionMetadataLength + sourceMetadataLength + dataEnd);
      r := Patch(r, 16, lineTableMetadataLength + functionMetadataLength + sourceMetadataLength + dataEnd);
      PatchedHeader(codeEnd, dataEnd, body + MetadataBytes(m), sourceMetadataLength + dataEnd,
        functionMetadataLength + sourceMetadataLength + dataEnd,
        lineTableMetadataLength + functionMetadataLength + sourceMetadataLength + dataEnd, r);
    }
  }

  lemma {:induction false} SectionsJoined(h: Bytes, body: Bytes, s: Bytes, f: Bytes, l: Bytes)
    ensures h + body + s + f + l == h + (body + (s + f + l))
  {
  }

  /** generateBytecode for a program with metadata, with the label table of the first pass. */
  method GenerateFile(assembler: Assembler, ss: seq<Statement>, m: Metadata) returns (v: Verdict, file: Bytes)
    requires AllKnown(ss, Table(ss)) && assembler.labelTable == Table(ss)
    requires assembler.codeEndLocation == HEADER_SIZE + CodeLen(ss) - 1
    requires assembler.dataEndLocation == HEADER_SIZE + CodeLen(ss) + CountedLen(ss) - 1
    ensures v == if ImmediatesOk(ss) then Accepted else BadImmediate
    ensures v.Accepted? ==> file == FileBytes(ss, m)
  {
    hide Body, FileHeader, MetadataBytes, CodeLen, CountedLen, ImmediatesOk, HeaderBytes, Table, SourcesBytes,
      FunctionsBytes, EncodeTable, LittleEndian, RefOf;
    v, file := assembler.GenerateBytecode(ss);
    if v.Accepted? {
      var writer := new MetadataWriter();
      file := writer.AppendMetadata(file, assembler.codeEndLocation, assembler.dataEndLocation, Body(ss, Table(ss)), m);
    }
  }

  function Patched(b: Bytes, at: nat, v: int): (r: Bytes)
    requires at + 4 <= |b|
    ensures |r| == |b|
  {
    b[..at] + LittleEndian(v, 4) + b[at + 4..]
  }

  lemma {:induction false} PatchedHeader(codeEnd: int, dataEnd: int, rest: Bytes, v: int, w: int, x: int, r: Bytes)
    requires r == Patched(Patched(Patched(HeaderBytes(codeEnd, dataEnd) + rest, 8, v), 12, w), 16, x)
    ensures r == FileHeader(codeEnd, dataEnd, v, w, x) + rest
  {
    hide LittleEndian;
    var a, b := LittleEndian(codeEnd, 4), LittleEndian(dataEnd, 4);
    var p := Patched(HeaderBytes(codeEnd, dataEnd) + rest, 8, v);
    assert p == a + b + LittleEndian(v, 4) + b + b + rest;
    var q := Patched(p, 12, w);
    assert q == a + b + LittleEndian(v, 4) + LittleEndian(w, 4) + b + rest;
    assert r == a + b + LittleEndian(v, 4) + LittleEndian(w, 4) + LittleEndian(x, 4) + rest;
  }

  // ---------------------------------------------------------------- reading

  /** Entry k occupies its bytes right behind those of the entries before it. */
  lemma {:induction false} SourceAt(es: seq<SourceEntry>, k: nat)
    requires k < |es|
    ensures var at := |SourcesBytes(es[..k])|;
      at + |SourceBytes(es[k])| == |SourcesBytes(es[..k + 1])| <= |SourcesBytes(es)|
        && SourcesBytes(es)[at..at + |SourceBytes(es[k])|] == SourceBytes(es[k])
    decreases |es|
  {
    hide SourceBytes;
    var n := |es| - 1;
    assert es[..k + 1][..k] == es[..k];
    if k < n {
      SourceAt(es[..n], k);
      assert es[..n][..k] == es[..k] && es[..n][..k + 1] == es[..k + 1];
    } else {
      assert es[..k + 1] == es;
    }
  }

  lemma {:induction false} FunctionAt(es: seq<FunctionEntry>, k: nat)
    requires k < |es|
    ensures var at := |FunctionsBytes(es[..k])|;
      at + |FunctionBytes(es[k])| == |FunctionsBytes(es[..k + 1])| <= |FunctionsBytes(es)|
        && FunctionsBytes(es)[at..at + |FunctionBytes(es[k])|] == FunctionBytes(es[k])
    decreases |es|
  {
    hide FunctionBytes;
    var n := |es| - 1;
    assert es[..k + 1][..k] == es[..k];
    if k < n {
      FunctionAt(es[..n], k);
      assert es[..n][..k] == es[..k] && es[..n][..k + 1] == es[..k + 1];
    } else {
      assert es[..k + 1] == es;
    }
  }

  /** A part of the file that holds the bytes of a section. */
  predicate SectionAt(b: Bytes, at: nat, section: Bytes) {
    at + |section| <= |b| && b[at..at + |section|] == section
  }

  lemma {:induction false} SubSection(b: Bytes, at: nat, section: Bytes, k: nat, n: nat)
    requires SectionAt(b, at, section) && k + n <= |section|
    ensures at + k + n <= |b| && b[at + k..at + k + n] == section[k..k + n]
  {
    Slice(b, at, |section|, k, n);
  }

  /** A number of n bytes inside an entry. */
  lemma {:induction false} FieldAt(b: Bytes, at: nat, section: Bytes, k: nat, v: int, n: nat)
    requires SectionAt(b, at, section) && k + n <= |section| && section[k..k + n] == LittleEndian(v, n)
    ensures at + k + n <= |b| && Number(b[at + k..at + k + n]) == v % Radix(n)
  {
    hide LittleEndian, Number, Radix;
    SubSection(b, at, section, k, n);
    NumberOfLittleEndian(v, n);
  }

  method ReadSources(bytecode: Bytes, start: nat, endOfSources: int, ghost es: seq<SourceEntry>)
    returns (read: seq<SourceEntry>)
    requires SectionAt(bytecode, start, SourcesBytes(es)) && endOfSources == start + |SourcesBytes(es)| - 1
    requires forall i | 0 <= i < |es| :: StorableSource(es[i])
    ensures read == es
  {
    hide LittleEndian, Number, SourceBytes, SectionAt;
    read := [];
    var bytecodeIdx := start;
    ghost var k := 0;
    while bytecodeIdx < endOfSources
      invariant 0 <= k <= |es| && read == es[..k] && bytecodeIdx == start + |SourcesBytes(es[..k])|
      invariant k == |es| ==> bytecodeIdx > endOfSources
      invariant k < |es| ==> bytecodeIdx + 6 <= endOfSources + 1
      decreases |es| - k
    {
      SourceAt(es, k);
      SubEntry(bytecode, start, SourcesBytes(es), |SourcesBytes(es[..k])|, SourceBytes(es[k]));
      SourceFields(bytecode, bytecodeIdx, es[k]);
      var sourceId := Number(bytecode[bytecodeIdx..bytecodeIdx + 2]);
      bytecodeIdx := bytecodeIdx + 2;
      var pathStringSize := Number(bytecode[bytecodeIdx..bytecodeIdx + 4]);
      bytecodeIdx := bytecodeIdx + 4;
      var path := bytecode[bytecodeIdx..bytecodeIdx + pathStringSize];
      bytecodeIdx := bytecodeIdx + pathStringSize;
      read := read + [SourceEntry(sourceId, path)];
      k := k + 1;
      NextSource(es, k);
    }
  }

  lemma {:induction false} NextSource(es: seq<SourceEntry>, k: nat)
    requires k <= |es|
    ensures k == |es| ==> es[..k] == es
    ensures k < |es| ==> |SourcesBytes(es[..k])| + 6 <= |SourcesBytes(es)|
  {
    hide SourcesBytes;
    if k < |es| {
      SourceAt(es, k);
    } else {
      assert es[..k] == es;
    }
  }

  lemma {:induction false} SubEntry(b: Bytes, start: nat, section: Bytes, at: nat, entry: Bytes)
    requires SectionAt(b, start, section) && at + |entry| <= |section| && section[at..at + |entry|] == entry
    ensures SectionAt(b, start + at, entry)
  {
    SubSection(b, start, section, at, |entry|);
  }

  /** The fields of a source entry, where its bytes stand. */
  lemma {:induction false} SourceFields(b: Bytes, at: nat, e: SourceEntry)
    requires SectionAt(b, at, SourceBytes(e)) && StorableSource(e)
    ensures at + 6 + |e.path| <= |b|
    ensures Number(b[at..at + 2]) == e.id && Number(b[at + 2..at + 6]) == |e.path|
    ensures b[at + 6..at + 6 + |e.path|] == e.path
  {
    hide LittleEndian, Number, Radix;
    var s := SourceBytes(e);
    Radices();
    assert s[0..2] == LittleEndian(e.id, 2) && s[2..6] == LittleEndian(|e.path|, 4) && s[6..6 + |e.path|] == e.path;
    FieldAt(b, at, s, 0, e.id, 2);
    FieldAt(b, at, s, 2, |e.path|, 4);
    SubSection(b, at, s, 6, |e.path|);
  }

  method ReadFunctions(bytecode: Bytes, start: nat, endOfFunctions: int, ghost es: seq<FunctionEntry>)
    returns (read: seq<FunctionEntry>)
    requires SectionAt(bytecode, start, FunctionsBytes(es)) && endOfFunctions == start + |FunctionsBytes(es)| - 1
    requires forall i | 0 <= i < |es| :: StorableFunction(es[i])
    ensures read == es
  {
    hide LittleEndian, Number, FunctionBytes, SectionAt;
    read := [];
    var bytecodeIdx := start;
    ghost var k := 0;
    while bytecodeIdx < endOfFunctions
      invariant 0 <= k <= |es| && read == es[..k] && bytecodeIdx == start + |FunctionsBytes(es[..k])|
      invariant k == |es| ==> bytecodeIdx > endOfFunctions
      invariant k < |es| ==> bytecodeIdx + 14 <= endOfFunctions + 1
      decreases |es| - k
    {
      FunctionAt(es, k);
      SubEntry(bytecode, start, FunctionsBytes(es), |FunctionsBytes(es[..k])|, FunctionBytes(es[k]));
      FunctionFields(bytecode, bytecodeIdx, es[k]);
      var startAddress := Number(bytecode[bytecodeIdx..bytecodeIdx + 4]);
      bytecodeIdx := bytecodeIdx + 4;
      var endAddress := Number(bytecode[bytecodeIdx..bytecodeIdx + 4]);
      bytecodeIdx := bytecodeIdx + 4;
      var sourceId := Number(bytecode[bytecodeIdx..bytecodeIdx + 2]);
      bytecodeIdx := bytecodeIdx + 2;
      var functionNameStringSize := Number(bytecode[bytecodeIdx..bytecodeIdx + 4]);
      bytecodeIdx := bytecodeIdx + 4;
      var functionName := bytecode[bytecodeIdx..bytecodeIdx + functionNameStringSize];
      bytecodeIdx := bytecodeIdx + functionNameStringSize;
      read := read + [FunctionEntry(startAddress, endAddress, sourceId, functionName)];
      k := k + 1;
      NextFunction(es, k);
    }
  }

  lemma {:induction false} NextFunction(es: seq<FunctionEntry>, k: nat)
    requires k <= |es|
    ensures k == |es| ==> es[..k] == es
    ensures k < |es| ==> |FunctionsBytes(es[..k])| + 14 <= |FunctionsBytes(es)|
  {
    hide FunctionsBytes;
    if k < |es| {
      FunctionAt(es, k);
    } else {
      assert es[..k] == es;
    }
  }

  lemma {:induction false} FunctionFields(b: Bytes, at: nat, e: FunctionEntry)
    requires SectionAt(b, at, FunctionBytes(e)) && StorableFunction(e)
    ensures at + 14 + |e.name| <= |b|
    ensures Number(b[at..at + 4]) == e.start && Number(b[at + 4..at + 8]) == e.end
    ensures Number(b[at + 8..at + 10]) == e.source && Number(b[at + 10..at + 14]) == |e.name|
    ensures b[at + 14..at + 14 + |e.name|] == e.name
  {
    hide LittleEndian, Number, Radix;
    var s := FunctionBytes(e);
    Radices();
    assert s[0..4] == LittleEndian(e.start, 4) && s[4..8] == LittleEndian(e.end, 4);
    assert s[8..10] == LittleEndian(e.source, 2) && s[10..14] == LittleEndian(|e.name|, 4);
    assert s[14..14 + |e.name|] == e.name;
    FieldAt(b, at, s, 0, e.start, 4);
    FieldAt(b, at, s, 4, e.end, 4);
    FieldAt(b, at, s, 8, e.source, 2);
    FieldAt(b, at, s, 10, |e.name|, 4);
    SubSection(b, at, s, 14, |e.name|);
  }

  /** The five numbers of the header. */
  lemma {:induction false} HeaderFields(codeEnd: int, dataEnd: int, sourceEnd: int, functionEnd: int, lineEnd: int,
          rest: Bytes)
    requires IsWord(codeEnd) && IsWord(dataEnd) && IsWord(sourceEnd) && IsWord(functionEnd) && IsWord(lineEnd)
    ensures var b := FileHeader(codeEnd, dataEnd, sourceEnd, functionEnd, lineEnd) + rest;
      && |b| == HEADER_SIZE + |rest| && WordAt(b, 0) == codeEnd && WordAt(b, 4) == dataEnd && WordAt(b, 8) == sourceEnd
      && WordAt(b, 12) == functionEnd && WordAt(b, 16) == lineEnd && b[HEADER_SIZE..] == rest
  {
    hide LittleEndian, Number, Radix;
    var h := FileHeader(codeEnd, dataEnd, sourceEnd, functionEnd, lineEnd);
    var b := h + rest;
    Radices();
    assert b[0..20] == h;
    assert h[0..4] == LittleEndian(codeEnd, 4) && h[4..8] == LittleEndian(dataEnd, 4);
    assert h[8..12] == LittleEndian(sourceEnd, 4) && h[12..16] == LittleEndian(functionEnd, 4);
    LastField(codeEnd, dataEnd, sourceEnd, functionEnd, lineEnd);
    FieldAt(b, 0, h, 0, codeEnd, 4);
    FieldAt(b, 0, h, 4, dataEnd, 4);
    FieldAt(b, 0, h, 8, sourceEnd, 4);
    FieldAt(b, 0, h, 12, functionEnd, 4);
    FieldAt(b, 0, h, 16, lineEnd, 4);
  }

  lemma {:induction false} LastField(codeEnd: int, dataEnd: int, sourceEnd: int, functionEnd: int, lineEnd: int)
    ensures FileHeader(codeEnd, dataEnd, sourceEnd, functionEnd, lineEnd)[16..20] == LittleEndian(lineEnd, 4)
  {
    hide LittleEndian;
  }

  // ---------------------------------------------------------------- the theorems

  /** Sections one behind the other. */
  lemma {:induction false} Sections(h: Bytes, body: Bytes, s: Bytes, f: Bytes, l: Bytes)
    ensures var b, at := h + (body + (s + f + l)), |h| + |body|;
      && |b| == at + |s| + |f| + |l| && b[|h|..at] == body
      && SectionAt(b, at, s) && SectionAt(b, at + |s|, f) && SectionAt(b, at + |s| + |f|, l)
      && b[at + |s| + |f|..] == l
  {
    var b, at := h + (body + (s + f + l)), |h| + |body|;
    assert b == h + body + (s + (f + l));
    assert b == (h + body + s) + (f + l);
    assert b == (h + body + s + f) + l;
  }

  /** Where the sections of a file stand. */
  lemma {:induction false} FileSections(ss: seq<Statement>, m: Metadata)
    requires AllKnown(ss, Table(ss)) && CountedLen(ss) == DataLen(ss) && |FileBytes(ss, m)| < W32
    ensures var b, at := FileBytes(ss, m), HEADER_SIZE + CodeLen(ss) + DataLen(ss);
      var s, f, l := SourcesBytes(m.sources), FunctionsBytes(m.functions), EncodeTable(m.lines);
      && |b| == at + |s| + |f| + |l|
      && WordAt(b, 0) == HEADER_SIZE + CodeLen(ss) - 1 && WordAt(b, 4) == at - 1
      && WordAt(b, 8) == at + |s| - 1 && WordAt(b, 12) == at + |s| + |f| - 1 && WordAt(b, 16) == |b| - 1
      && b[HEADER_SIZE..at] == Body(ss, Table(ss))
      && SectionAt(b, at, s) && SectionAt(b, at + |s|, f) && SectionAt(b, at + |s| + |f|, l)
      && b[at + |s| + |f|..] == l
  {
    hide FileHeader, Body, SourcesBytes, FunctionsBytes, EncodeTable, WordAt, CodeLen, DataLen, CountedLen;
    BodyLength(ss, Table(ss));
    var b, body := FileBytes(ss, m), Body(ss, Table(ss));
    var s, f, l := SourcesBytes(m.sources), FunctionsBytes(m.functions), EncodeTable(m.lines);
    var at := HEADER_SIZE + |body|;
    var rest := body + MetadataBytes(m);
    HeaderFields(HEADER_SIZE + CodeLen(ss) - 1, at - 1, at - 1 + |s|, at - 1 + |s| + |f|,
      at - 1 + |s| + |f| + |l|, rest);
    Sections(FileHeader(HEADER_SIZE + CodeLen(ss) - 1, at - 1, at - 1 + |s|, at - 1 + |s| + |f|,
      at - 1 + |s| + |f| + |l|), body, s, f, l);
  }

  /** The program is loaded from the file as from one without metadata. */
  lemma {:induction false} MetadataInvisible(ss: seq<Statement>, m: Metadata)
    requires AllKnown(ss, Table(ss)) && CountedLen(ss) == DataLen(ss) && |FileBytes(ss, m)| < W32
    ensures ReadBytecode(FileBytes(ss, m)).Some?
    ensures ReadBytecode(FileBytes(ss, m)) == ReadBytecode(Assembly(ss))
  {
    hide WordAt, CodeLen, DataLen, CountedLen, Body, HeaderBytes, Region, SourcesBytes, FunctionsBytes, EncodeTable,
      FileBytes;
    FileSections(ss, m);
    BodyLength(ss, Table(ss));
    var b, body, n := FileBytes(ss, m), Body(ss, Table(ss)), CodeLen(ss);
    var a := Assembly(ss);
    Slice(b, HEADER_SIZE, |body|, 0, n);
    HeaderWords(HEADER_SIZE + n - 1, HEADER_SIZE + n + CountedLen(ss) - 1, body);
    assert a[HEADER_SIZE..] == body;
    assert a[HEADER_SIZE..HEADER_SIZE + n] == a[HEADER_SIZE..][..n] == body[..n];
    assert a[HEADER_SIZE..HEADER_SIZE + |body|] == body;
  }

  /** readBytecode over the metadata sections: the VM gets back the sources, functions and lines that the assembler
      wrote, and takes the program for one without metadata exactly when there are none. */
  method ReadMetadata(bytecode: Bytes, ghost ss: seq<Statement>, ghost m: Metadata)
    returns (read: Metadata, internal: bool)
    requires AllKnown(ss, Table(ss)) && CountedLen(ss) == DataLen(ss) && StorableMetadata(m)
    requires bytecode == FileBytes(ss, m) && |bytecode| < W32
    ensures read == m
    ensures internal <==> m == Metadata([], [], [])
  {
    hide WordAt, FileBytes, SectionAt, EncodeTable, SourcesBytes, FunctionsBytes, CodeLen, DataLen, CountedLen, Body;
    FileSections(ss, m);
    var endOfDataAddress := WordAt(bytecode, 4);
    var endOfSourcesAddress := WordAt(bytecode, 8);
    var endOfFunctionsAddress := WordAt(bytecode, 12);
    var endOfLineTableAddress := WordAt(bytecode, 16);
    internal := endOfDataAddress == endOfSourcesAddress && endOfSourcesAddress == endOfLineTableAddress;
    EmptySections(m);
    var sources := ReadSources(bytecode, endOfDataAddress + 1, endOfSourcesAddress, m.sources);
    var functions := ReadFunctions(bytecode, endOfSourcesAddress + 1, endOfFunctionsAddress, m.functions);
    var lines := ReadTable(bytecode[endOfFunctionsAddress + 1..], m.lines);
    read := Metadata(sources, functions, lines);
  }

  lemma {:induction false} EmptySections(m: Metadata)
    ensures |SourcesBytes(m.sources)| == 0 <==> m.sources == []
    ensures |FunctionsBytes(m.functions)| == 0 <==> m.functions == []
    ensures |EncodeTable(m.lines)| == 0 <==> m.lines == []
  {
    hide SourceBytes, FunctionBytes, EncodeEntry;
  }
}
