/** From code addresses back to source positions: the emitter's line table, its merging, its bytes, and the
    search at run time all describe one map. */
module DebugMap {
  import opened Words
  import opened Source
  import opened Encoding
  import opened Assembler

  datatype Position = Position(source: int, line: int, column: int)

  datatype Entry<+T> = Entry(start: int, end: int, value: T)

  type LineTable = seq<Entry<Position>>

  predicate Covers<T>(e: Entry<T>, a: int) {
    e.start <= a < e.end
  }

  /** What a table says about an address, searching from the front. */
  function Find<T>(t: seq<Entry<T>>, a: int): Option<T> {
    if t == [] then None else if Covers(t[0], a) then Some(t[0].value) else Find(t[1..], a)
  }

  /** Nonempty ranges in address order. */
  ghost predicate Sorted<T>(t: seq<Entry<T>>) {
    && (forall i {:trigger t[i]} | 0 <= i < |t| :: t[i].start < t[i].end)
    && (forall i, j {:trigger t[i], t[j]} | 0 <= i < j < |t| :: t[i].end <= t[j].start)
  }

  lemma {:induction false} FindAt<T>(t: seq<Entry<T>>, i: nat, a: int)
    requires Sorted(t) && i < |t| && Covers(t[i], a)
    ensures Find(t, a) == Some(t[i].value)
    decreases i
  {
    if i > 0 {
      FindAt(t[1..], i - 1, a);
    }
  }

  lemma {:induction false} FindSome<T>(t: seq<Entry<T>>, a: int) returns (i: nat)
    requires Find(t, a).Some?
    ensures i < |t| && Covers(t[i], a) && Find(t, a) == Some(t[i].value)
  {
    if Covers(t[0], a) {
      i := 0;
    } else {
      i := FindSome(t[1..], a);
      i := i + 1;
    }
  }

  lemma {:induction false} FindConcat<T>(s: seq<Entry<T>>, t: seq<Entry<T>>, a: int)
    ensures Find(s + t, a) == if Find(s, a).Some? then Find(s, a) else Find(t, a)
  {
    if s == [] {
      assert s + t == t;
    } else {
      assert (s + t)[1..] == s[1..] + t;
      FindConcat(s[1..], t, a);
    }
  }

  // ---------------------------------------------------------------- merging

  /** Neighbours that the merging loop joins. */
  predicate Joins<T(==)>(e: Entry<T>, f: Entry<T>) {
    e.end == f.start && e.value == f.value
  }

  predicate JoinsNext<T(==)>(t: seq<Entry<T>>, i: int) {
    0 <= i < |t| - 1 && Joins(t[i], t[i + 1])
  }

  ghost predicate Apart<T>(t: seq<Entry<T>>) {
    forall i :: !JoinsNext(t, i)
  }

  /** Entry j continues the run that starts at p. */
  predicate Continues<T(==)>(t: seq<Entry<T>>, p: nat, j: int) {
    p <= j < |t| && t[j].value == t[p].value && (j > p ==> t[j - 1].end == t[j].start)
  }

  /** A run of touching entries with one value says what a single entry over them says. */
  lemma {:induction false} RunAsOne<T>(t: seq<Entry<T>>, p: nat, q: nat, a: int)
    requires Sorted(t) && p < q <= |t|
    requires forall j | p <= j < q :: Continues(t, p, j)
    ensures Find(t[p..q], a) == if t[p].start <= a < t[q - 1].end then Some(t[p].value) else None
    decreases q - p
  {
    var s := t[p..q];
    assert Continues(t, p, p);
    if q == p + 1 {
      assert s[1..] == [];
    } else {
      assert s[1..] == t[p + 1..q];
      assert Continues(t, p, p + 1);
      var p1 := p + 1;
      forall j | p1 <= j < q
        ensures Continues(t, p1, j)
      {
        assert Continues(t, p, j);
      }
      RunAsOne(t, p1, q, a);
    }
  }

  /** The loops of emitLineTableMetadataSection. */
  method MergeLines(table: LineTable) returns (out: LineTable)
    requires table != [] && Sorted(table)
    ensures Sorted(out) && Apart(out)
    ensures forall a :: Find(out, a) == Find(table, a)
  {
    hide Sorted, Apart, Find, Merging;
    MergingNothing(table);
    var previous := 0;
    var mergeLastMetadataLine := false;
    out := [];
    var lineIdx := 1;
    while lineIdx < |table|
      invariant 1 <= lineIdx <= |table| + 1 && previous == lineIdx - 1
      invariant mergeLastMetadataLine <==> previous == |table|
      invariant Merging(table, out, previous)
    {
      while lineIdx < |table| && table[lineIdx - 1].end == table[lineIdx].start
        && table[previous].value == table[lineIdx].value
        invariant previous < lineIdx <= |table|
        invariant forall j | previous <= j < lineIdx :: Continues(table, previous, j)
      {
        lineIdx := lineIdx + 1;
      }
      if lineIdx == |table| {
        mergeLastMetadataLine := true;
      }
      EmitMerged(table, out, previous, lineIdx);
      out := out + [Entry(table[previous].start, table[lineIdx - 1].end, table[previous].value)];
      previous := lineIdx;
      lineIdx := lineIdx + 1;
    }
    if !mergeLastMetadataLine {
      EmitMerged(table, out, previous, |table|);
      out := out + [table[|table| - 1]];
    }
    assert table[..|table|] == table;
    MergingAll(table, out);
  }

  lemma {:induction false} MergingNothing(table: LineTable)
    ensures Merging(table, [], 0)
  {
  }

  lemma {:induction false} MergingAll(table: LineTable, out: LineTable)
    requires Merging(table, out, |table|)
    ensures Sorted(out) && Apart(out) && forall a :: Find(out, a) == Find(table, a)
  {
    assert table[..|table|] == table;
  }

  /** `out` stands for the first p entries and cannot be joined with the rest. */
  ghost predicate Merging(table: LineTable, out: LineTable, p: nat)
    requires p <= |table|
  {
    && Sorted(out) && Apart(out)
    && (out != [] ==>
          p > 0 && out[|out| - 1].end == table[p - 1].end && (p < |table| ==> !Joins(out[|out| - 1], table[p])))
    && forall a :: Find(out, a) == Find(table[..p], a)
  }

  lemma {:induction false} EmitMerged(table: LineTable, out: LineTable, p: nat, q: nat)
    requires Sorted(table) && p < q <= |table| && Merging(table, out, p)
    requires forall j | p <= j < q :: Continues(table, p, j)
    requires q < |table| ==> table[q - 1].end != table[q].start || table[p].value != table[q].value
    ensures Merging(table, out + [Entry(table[p].start, table[q - 1].end, table[p].value)], q)
  {
    hide Find, Sorted, Continues, Apart;
    var e := Entry(table[p].start, table[q - 1].end, table[p].value);
    forall a
      ensures Find(out + [e], a) == Find(table[..q], a)
    {
      MergedFind(table, out, p, q, a);
    }
    RunNotEmpty(table, p, q);
    AppendSorted(table, out, p, e);
    AppendApart(out, e);
  }

  lemma {:induction false} RunNotEmpty(t: LineTable, p: nat, q: nat)
    requires Sorted(t) && p < q <= |t|
    ensures t[p].start < t[q - 1].end
  {
    assert t[q - 1].start < t[q - 1].end && (p < q - 1 ==> t[p].end <= t[q - 1].start);
  }

  lemma {:induction false} MergedFind(table: LineTable, out: LineTable, p: nat, q: nat, a: int)
    requires Sorted(table) && p < q <= |table| && Find(out, a) == Find(table[..p], a)
    requires forall j | p <= j < q :: Continues(table, p, j)
    ensures Find(out + [Entry(table[p].start, table[q - 1].end, table[p].value)], a) == Find(table[..q], a)
  {
    hide Sorted, Continues;
    var e := Entry(table[p].start, table[q - 1].end, table[p].value);
    assert table[..q] == table[..p] + table[p..q];
    FindConcat(table[..p], table[p..q], a);
    FindConcat(out, [e], a);
    RunAsOne(table, p, q, a);
    assert [e][1..] == [];
  }

  lemma {:induction false} AppendApart(out: LineTable, e: Entry<Position>)
    requires Apart(out) && (out != [] ==> !Joins(out[|out| - 1], e))
    ensures Apart(out + [e])
  {
    var next := out + [e];
    forall i
      ensures !JoinsNext(next, i)
    {
      assert !JoinsNext(out, i);
    }
  }

  lemma {:induction false} AppendSorted(table: LineTable, out: LineTable, p: nat, e: Entry<Position>)
    requires Sorted(table) && p < |table| && Sorted(out) && e.start == table[p].start < e.end
    requires out != [] ==> p > 0 && out[|out| - 1].end == table[p - 1].end
    ensures Sorted(out + [e])
  {
    var next := out + [e];
    forall i, j {:trigger next[i], next[j]} | 0 <= i < j < |next|
      ensures next[i].end <= next[j].start
    {
      if j == |out| {
        assert out[|out| - 1].end == table[p - 1].end <= table[p].start;
        assert i < |out| - 1 ==> out[i].end <= out[|out| - 1].start < out[|out| - 1].end;
      }
    }
  }

  /** Merging leaves no choice: two merged tables that say the same about every address are equal. */
  lemma {:induction false} MergedUnique(t: LineTable, u: LineTable)
    requires Sorted(t) && Sorted(u) && Apart(t) && Apart(u) && forall a :: Find(t, a) == Find(u, a)
    ensures t == u
    decreases |t|
  {
    hide Find;
    if t == [] || u == [] {
      FindNothing(t);
      FindNothing(u);
    } else {
      SameFirst(t, u);
      TailTable(t);
      TailTable(u);
      forall a
        ensures Find(t[1..], a) == Find(u[1..], a)
      {
        FindTail(t, a);
        FindTail(u, a);
      }
      MergedUnique(t[1..], u[1..]);
      assert t == [t[0]] + t[1..] && u == [u[0]] + u[1..];
    }
  }

  lemma {:induction false} FindNothing(t: LineTable)
    requires Sorted(t)
    ensures t == [] ==> forall a :: Find(t, a) == None
    ensures t != [] ==> Find(t, t[0].start) != None
  {
    if t != [] {
      FindAt(t, 0, t[0].start);
    }
  }

  lemma {:induction false} TailTable(t: LineTable)
    requires Sorted(t) && Apart(t) && t != []
    ensures Sorted(t[1..]) && Apart(t[1..])
  {
    forall i
      ensures !JoinsNext(t[1..], i)
    {
      assert !JoinsNext(t, i + 1);
    }
  }

  lemma {:induction false} FindTail(t: LineTable, a: int)
    requires Sorted(t) && t != []
    ensures Find(t[1..], a) == if a < t[0].end then None else Find(t, a)
  {
    if Find(t[1..], a).Some? {
      var i := FindSome(t[1..], a);
      assert t[1..][i] == t[i + 1];
      FindAt(t, i + 1, a);
    }
  }

  /** Before the first entry a table says nothing, inside it one thing, just behind it something else. */
  lemma {:induction false} FirstEntry(t: LineTable, a: int)
    requires Sorted(t) && Apart(t) && t != []
    ensures a < t[0].start ==> Find(t, a) == None
    ensures t[0].start <= a < t[0].end ==> Find(t, a) == Some(t[0].value)
    ensures Find(t, t[0].end) != Some(t[0].value)
  {
    if Find(t, a).Some? {
      var i := FindSome(t, a);
    }
    if Find(t, t[0].end).Some? {
      var i := FindSome(t, t[0].end);
      assert i == 1;
      assert !JoinsNext(t, 0);
    }
  }

  lemma {:induction false} SameFirst(t: LineTable, u: LineTable)
    requires Sorted(t) && Sorted(u) && Apart(t) && Apart(u) && t != [] && u != [] && forall a ::
      Find(t, a) == Find(u, a)
    ensures t[0] == u[0]
  {
    hide Find, Apart;
    var e, f := t[0], u[0];
    FirstEntry(t, f.start);
    FirstEntry(u, e.start);
    FirstEntry(t, e.start);
    FirstEntry(u, f.start);
    FirstEntry(t, f.end);
    FirstEntry(u, e.end);
  }

  // ---------------------------------------------------------------- searching

  /** std::upper_bound on the start addresses: the number of entries that start at or below an address. */
  method UpperBound<T>(t: seq<Entry<T>>, address: int) returns (first: nat)
    requires Sorted(t)
    ensures first <= |t|
    ensures forall i {:trigger t[i]} | 0 <= i < first :: t[i].start <= address
    ensures forall i {:trigger t[i]} | first <= i < |t| :: address < t[i].start
  {
    first := 0;
    var count := |t|;
    while count > 0
      invariant 0 <= first && 0 <= count && first + count <= |t|
      invariant forall i {:trigger t[i]} | 0 <= i < first :: t[i].start <= address
      invariant forall i {:trigger t[i]} | first + count <= i < |t| :: address < t[i].start
    {
      var step := count / 2;
      var it := first + step;
      if address < t[it].start {
        count := step;
      } else {
        first := it + 1;
        count := count - (step + 1);
      }
    }
  }

  /** getLineTableMetadata and getFunctionMetadata: the binary search finds what a search from the front does. */
  method Lookup<T>(t: seq<Entry<T>>, address: int) returns (r: Option<T>)
    requires Sorted(t)
    ensures r == Find(t, address)
  {
    var it := UpperBound(t, address);
    if Find(t, address).Some? {
      ghost var i := FindSome(t, address);
      assert i < it;
    }
    if it == 0 {
      return None;
    }
    it := it - 1;
    if address >= t[it].start && address < t[it].end {
      FindAt(t, it, address);
      return Some(t[it].value);
    }
    return None;
  }

  // ---------------------------------------------------------------- bytes

  const ENTRY_SIZE := 16

  predicate Storable(e: Entry<Position>) {
    IsWord(e.start) && IsWord(e.end) && 0 <= e.value.source < 0x1_0000 && IsWord(e.value.line)
      && 0 <= e.value.column < 0x1_0000
  }

  /** convertLineTableMetadata. */
  function EncodeEntry(e: Entry<Position>): (b: Bytes)
    ensures |b| == ENTRY_SIZE
  {
    LittleEndian(e.start, 4) + LittleEndian(e.end, 4) + LittleEndian(e.value.source, 2) + LittleEndian(e.value.line, 4)
      + LittleEndian(e.value.column, 2)
  }

  function EncodeTable(t: LineTable): (b: Bytes)
    ensures |b| == ENTRY_SIZE * |t|
  {
    if t == [] then [] else EncodeTable(t[..|t| - 1]) + EncodeEntry(t[|t| - 1])
  }

  function EntryAt(b: Bytes, at: nat): Entry<Position>
    requires at + ENTRY_SIZE <= |b|
  {
    Entry(Number(b[at..at + 4]), Number(b[at + 4..at + 8]),
          Position(Number(b[at + 8..at + 10]), Number(b[at + 10..at + 14]), Number(b[at + 14..at + 16])))
  }

  lemma {:induction false} EntryRoundTrip(b: Bytes, at: nat, e: Entry<Position>)
    requires at + ENTRY_SIZE <= |b| && b[at..at + ENTRY_SIZE] == EncodeEntry(e) && Storable(e)
    ensures EntryAt(b, at) == e
  {
    hide LittleEndian, Number;
    var s := EncodeEntry(e);
    assert b[at..at + 4] == s[0..4] == LittleEndian(e.start, 4);
    assert b[at + 4..at + 8] == s[4..8] == LittleEndian(e.end, 4);
    assert b[at + 8..at + 10] == s[8..10] == LittleEndian(e.value.source, 2);
    assert b[at + 10..at + 14] == s[10..14] == LittleEndian(e.value.line, 4);
    assert b[at + 14..at + 16] == s[14..16] == LittleEndian(e.value.column, 2);
    NumberOfLittleEndian(e.start, 4);
    NumberOfLittleEndian(e.end, 4);
    NumberOfLittleEndian(e.value.source, 2);
    NumberOfLittleEndian(e.value.line, 4);
    NumberOfLittleEndian(e.value.column, 2);
    Radices();
  }

  lemma {:induction false} EntryBytes(t: LineTable, k: nat)
    requires k < |t|
    ensures EncodeTable(t)[ENTRY_SIZE * k..ENTRY_SIZE * k + ENTRY_SIZE] == EncodeEntry(t[k])
    decreases |t|
  {
    hide EncodeEntry;
    var b, p := EncodeTable(t), t[..|t| - 1];
    if k == |t| - 1 {
      assert b[ENTRY_SIZE * k..] == EncodeEntry(t[k]);
    } else {
      EntryBytes(p, k);
      assert b[ENTRY_SIZE * k..ENTRY_SIZE * k + ENTRY_SIZE]
        == EncodeTable(p)[ENTRY_SIZE * k..ENTRY_SIZE * k + ENTRY_SIZE];
    }
  }

  /** The loop of readBytecode over the line table, and the bytes the assembler wrote for it: the table comes
      back as it was. */
  method ReadTable(bytecode: Bytes, ghost written: LineTable) returns (t: LineTable)
    requires bytecode == EncodeTable(written) && forall i | 0 <= i < |written| :: Storable(written[i])
    ensures t == written
  {
    hide EncodeEntry, Number, Storable;
    t := [];
    var bytecodeIdx := 0;
    while bytecodeIdx < |bytecode|
      invariant bytecodeIdx == ENTRY_SIZE * |t| <= |bytecode| && t == written[..|t|]
    {
      EntryBytes(written, |t|);
      EntryRoundTrip(bytecode, bytecodeIdx, written[|t|]);
      var startAddress := Number(bytecode[bytecodeIdx..bytecodeIdx + 4]);
      var endAddress := Number(bytecode[bytecodeIdx + 4..bytecodeIdx + 8]);
      var sourceId := Number(bytecode[bytecodeIdx + 8..bytecodeIdx + 10]);
      var lineNumber := Number(bytecode[bytecodeIdx + 10..bytecodeIdx + 14]);
      var columnNumber := Number(bytecode[bytecodeIdx + 14..bytecodeIdx + 16]);
      t := t + [Entry(startAddress, endAddress, Position(sourceId, lineNumber, columnNumber))];
      bytecodeIdx := bytecodeIdx + ENTRY_SIZE;
    }
  }
}
