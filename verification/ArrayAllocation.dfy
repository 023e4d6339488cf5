/** The code of `new T[d0]...[dn]`: nested counting loops around alloc, which find the length of every
    level at a fixed depth of the operand stack. */
module ArrayAllocation {
  import opened Words
  import opened Isa
  import opened FlatMemory
  import opened Arithmetic
  import opened HeapRuns
  import opened Machine
  import opened Accesses
  import opened Source
  import opened CodeGen
  import opened ArrayCode
  import opened Cursor
  import opened ArrayTrees
  import opened ArrayBuilding
  import opened ArrayPages
  import opened Pages
  import HeapLaws
  import Heap

  const HEADER := Heap.HEADER

  // ---------------------------------------------------------------- states

  /** u is t with a new heap and a new top of the operand stack. */
  predicate WithHeap(t: State, u: State, h: Heap.HeapState, stack: seq<Value>) {
    u == t.(pc := u.pc, stack := stack, mem := h.mem, free := h.free, hp := h.hp)
  }

  /** Where the length of the j-th level below lies on the stack under the one being allocated. */
  function DimAt(B: seq<Value>, depth: nat, j: nat): int {
    |B| - (4 * depth + j)
  }

  ghost predicate DimHeld(B: seq<Value>, depth: nat, dims: seq<int>, j: nat)
    requires j < |dims|
  {
    0 <= DimAt(B, depth, j) < |B| && dims[j] >= 0 && B[DimAt(B, depth, j)] == Value(UI32, dims[j])
  }

  ghost predicate DimsBelow(B: seq<Value>, depth: nat, dims: seq<int>) {
    forall j | 1 <= j < |dims| :: DimHeld(B, depth, dims, j)
  }

  /** One level further down the same lengths are three operands and one level deeper. */
  lemma {:induction false} DimsDeeper(B: seq<Value>, depth: nat, dims: seq<int>, C: seq<Value>)
    requires DimsBelow(B, depth, dims) && dims != [] && |C| == 3
    ensures DimsBelow(B + C, depth + 1, dims[1..])
  {
    var D, deeper, rest := B + C, depth + 1, dims[1..];
    forall j | 1 <= j < |rest|
      ensures DimHeld(D, deeper, rest, j)
    {
      assert DimHeld(B, depth, dims, j + 1);
    }
  }

  /** At recursion depth k, `dup (4k - 1)` fetches exactly the length of level k. */
  lemma {:induction false} DupFetchesLength(B: seq<Value>, depth: nat, dims: seq<int>, C: seq<Value>)
    requires DimsBelow(B, depth, dims) && |dims| > 1 && |C| == 3
    ensures var stack, d := B + C, 4 * (depth + 1) - 1;
      d < |stack| && dims[1] >= 0 && stack[|stack| - 1 - d] == Value(UI32, dims[1])
  {
    assert DimHeld(B, depth, dims, 1);
  }

  // ---------------------------------------------------------------- one block

  lemma {:induction false} LengthSums(length: nat)
    requires length < W32
    ensures Apply(MUL, Value(UI32, length), Value(UI32, ELEMENT)) == Outcome.Ok(Value(UI32, ToWord(ELEMENT * length)))
    ensures Apply(ADD, Value(UI32, ToWord(ELEMENT * length)), Value(UI32, 4))
      == Outcome.Ok(Value(UI32, ArrayBytes(length)))
  {
    hide Sub, Div, Mod, Bitwise, ShiftLeft, ShiftRight, Compare;
  }

  lemma {:induction false} DoAlloc(im: Image, s: State, n: nat, t: State, rest: Asm, end: int, S: seq<Value>, size: nat)
    returns (u: State)
    requires At(im, s, n, t, Ins(Alloc, rest), end) && t.stack == S + [Value(UI32, size)] && size < W32
    requires |S| < MAX_OPERANDS && HeapLaws.Canonical(t.free, t.hb) && FreeAligned(t.free) && t.dataStart <= t.hb
    ensures match Heap.Allocate(t.HeapView(), size, t.sp)
            case Ok((h, p)) => At(im, s, n + 1, u, rest, end) && WithHeap(t, u, h, S + [Value(PTR, ToWord(p))])
            case Err(f) => Reaches(im.code, s, n + 1, u) && u.status == Failed(f)
  {
    hide Heap.Allocate, Run, HeapLaws.Canonical, FreeAligned, AllocWrites, AllCalm, Reaches;
    AllocCalm(t.dataStart, t.HeapView(), size, t.sp, t.hb);
    DoIns(im, s, n, t, Alloc, rest, end);
    u := Execute(im.code, After(t, Alloc), Alloc);
    assert Drop(t, 1) == S;
  }

  lemma {:induction false} DoRotD(im: Image, s: State, n: nat, t: State, d: nat, rest: Asm, end: int, S: seq<Value>,
          x: Value, D: seq<Value>) returns (u: State)
    requires At(im, s, n, t, Ins(RotD(d), rest), end) && t.stack == S + [x] + D && d == |D| + 1 < 256
    ensures u == t.(pc := t.pc + 3, stack := S + D + [x]) && At(im, s, n + 1, u, rest, end)
  {
    hide InsCalm, DataAccesses, Reaches;
    RotationCalm(im, t, d);
    DoIns(im, s, n, t, RotD(d), rest, end);
    var m := |t.stack|;
    assert Drop(t, d) == S;
    assert t.stack[m - d + 1..] == D;
    u := t.(pc := t.pc + 3, stack := S + D + [x]);
  }

  /** A partitioned and aligned heap between the data and the stack, in which the code of an array may run. */
  ghost predicate HeapSplit(t: State, live: Blocks) {
    && Partition(t.free, t.hp, live, t.hb) && t.hp < t.sp <= W32
    && FreeAligned(t.free) && t.dataStart <= t.hb
  }

  /** The block of the array at p, which holds its length. */
  ghost predicate ArrayReady(t: State, live: Blocks, p: nat, length: int) {
    && HeapSplit(t, live) && Aligned(p) && p - HEADER in live && IsWord(length) && length % WRAP < WRAP - 2
    && live[p - HEADER] == HEADER + 4 + ELEMENT * (length % WRAP) && Read32(t.mem, p) == length
  }

  /** The array pointer in place of the length, behind a new block; or the fault of the allocator. */
  ghost predicate HeadDone(im: Image, s: State, n: nat, t: State, u: State, rest: Asm, end: int, B: seq<Value>,
                           length: nat, live': Blocks)
    requires IsWord(length)
  {
    match Heap.Allocate(t.HeapView(), ArrayBytes(length), t.sp)
    case Err(f) => Reaches(im.code, s, n, u) && u.status == Failed(f)
    case Ok((h, p)) =>
      && p >= 0 && At(im, s, n, u, rest, end)
      && WithHeap(t, u, h.(mem := Write32(h.mem, p, length)), B + [Value(PTR, p)])
      && ArrayReady(u, live', p, length)
  }

  /** alloc, then the length stored in the first word of the block. */
  lemma {:induction false} SimHead(im: Image, s: State, n: nat, t: State, rest: Asm, end: int, B: seq<Value>,
          length: nat, live: Blocks)
    returns (u: State, live': Blocks)
    requires At(im, s, n, t, AllocHead(rest), end) && t.stack == B + [Value(UI32, length)] && |B| + 3 <= MAX_OPERANDS
    requires HeapSplit(t, live) && IsWord(length)
    ensures HeadDone(im, s, n, t, u, rest, end, B, length, live')
  {
    hide Run, Step, Execute, Reaches, Spans, Loaded, Length, HeapSplit, Read32, Write32, ArrayBytes, HeadDone;
    var L := Value(UI32, length);
    var r4 := StoreLength(rest);
    var r3 := Ins(Arith(ADD), r4);
    var r2 := Ins(Push(UI32, 4), r3);
    var r1 := Ins(Arith(MUL), r2);
    LengthSums(length);
    var t1 := DoDup(im, s, n, t, 0, Ins(Push(UI32, ELEMENT), r1), end);
    var t2 := DoPush(im, s, n + 1, t1, UI32, ELEMENT, r1, end);
    assert t2.stack == t.stack + [L, Value(UI32, ELEMENT)];
    var bytes := Value(UI32, ToWord(ELEMENT * length));
    var t3 := DoArith(im, s, n + 2, t2, MUL, r2, end, t.stack, L, Value(UI32, ELEMENT), bytes);
    var t4 := DoPush(im, s, n + 3, t3, UI32, 4, r3, end);
    assert t4.stack == t.stack + [bytes, Value(UI32, 4)];
    var t5 := DoArith(im, s, n + 4, t4, ADD, r4, end, t.stack, bytes, Value(UI32, 4), Value(UI32, ArrayBytes(length)));
    AtWeaken(im, s, n + 5, n, t5, r4, end);
    SplitSame(t, t5, live);
    u, live' := SimStoreLength(im, s, n, t5, rest, end, B, length, live);
    HeadSame(im, s, n, t, t5, u, rest, end, B, length, live');
  }

  lemma {:induction false} SplitSame(t: State, u: State, live: Blocks)
    requires HeapSplit(t, live) && u == t.(pc := u.pc, stack := u.stack)
    ensures HeapSplit(u, live)
  {
    hide Partition;
  }

  /** The pc and the operands before the allocation do not matter. */
  lemma {:induction false} HeadSame(im: Image, s: State, n: nat, t: State, t1: State, u: State, rest: Asm, end: int,
          B: seq<Value>, length: nat, live': Blocks)
    requires IsWord(length) && t1 == t.(pc := t1.pc, stack := t1.stack)
    requires HeadDone(im, s, n, t1, u, rest, end, B, length, live')
    ensures HeadDone(im, s, n, t, u, rest, end, B, length, live')
  {
    hide Run, Reaches, Heap.Allocate, ArrayReady, ArrayBytes, Write32;
    assert t1.HeapView() == t.HeapView();
  }

  lemma {:induction false} SimStoreLength(im: Image, s: State, n: nat, t: State, rest: Asm, end: int, B: seq<Value>,
          length: nat, live: Blocks)
    returns (u: State, live': Blocks)
    requires At(im, s, n, t, StoreLength(rest), end) && IsWord(length)
    requires t.stack == B + [Value(UI32, length)] + [Value(UI32, ArrayBytes(length))] && |B| + 3 <= MAX_OPERANDS
    requires HeapSplit(t, live)
    ensures HeadDone(im, s, n, t, u, rest, end, B, length, live')
  {
    hide Run, Step, Execute, Reaches, Spans, Loaded, Length, Partition, Heap.Allocate, Read32, Write32, ArrayBytes,
      InOnePage, FreeAligned, HeapLaws.Canonical;
    var L := Value(UI32, length);
    var r3 := Ins(Store, rest);
    var r2 := Ins(RotD(3), r3);
    var r1 := Ins(Dup(0), r2);
    PartitionCanonical(t.free, t.hp, live, t.hb);
    u := DoAlloc(im, s, n, t, r1, end, B + [L], ArrayBytes(length));
    live' := live;
    if Heap.Allocate(t.HeapView(), ArrayBytes(length), t.sp).Ok? {
      var (h, p) := Heap.Allocate(t.HeapView(), ArrayBytes(length), t.sp).value;
      live' := BlockBuilt(t.HeapView(), live, t.hb, length, t.sp);
      GrantedExact(t.HeapView(), length, t.sp);
      RequestAligned(length);
      AllocateAligned(t.HeapView(), ArrayBytes(length), t.sp);
      AlignedInPage(p);
      var P := Value(PTR, p);
      var u1 := u;
      ArrayBlock(h.(mem := Write32(h.mem, p, length)), live', t.hb, p);
      assert u1.stack == B + [L] + [P];
      var u2 := DoDup(im, s, n + 1, u1, 0, r2, end);
      assert u2.stack == B + [L] + [P, P];
      var u3 := DoRotD(im, s, n + 2, u2, 3, r3, end, B, L, [P, P]);
      assert u3.stack == (B + [P]) + [P, L];
      u := DoStore(im, s, n + 3, u3, rest, end, B + [P], P, L);
      AtWeaken(im, s, n + 4, n, u, rest, end);
    } else {
      ReachesWeaken(im.code, s, n + 1, n, u);
    }
  }

  // ---------------------------------------------------------------- rows

  ghost predicate LoopLoaded(im: Image, n: nat, loop: Asm, end: int) {
    && NestedStart(n) in im.labels && IsWord(im.labels[NestedStart(n)])
         && Spans(im, im.labels[NestedStart(n)], loop, end)
    && NestedEnd(n) in im.labels && IsWord(im.labels[NestedEnd(n)])
         && Spans(im, im.labels[NestedEnd(n)], Ins(Pop, Done), end)
  }

  lemma {:induction false} AfterRowLoaded(im: Image, at: int, n: nat, end: int)
    requires Spans(im, at, AfterRow(n), end)
    ensures NestedEnd(n) in im.labels && IsWord(im.labels[NestedEnd(n)])
    ensures Spans(im, im.labels[NestedEnd(n)], Ins(Pop, Done), end)
  {
    hide Spans;
    var r3 := Def(NestedEnd(n), Ins(Pop, Done));
    var r2 := Ins(Jmp(NestedStart(n)), r3);
    var r1 := Ins(Arith(SUB), r2);
    SpansIns(im, at, Store, Ins(Push(UI32, 1), r1), end);
    SpansIns(im, at + 1, Push(UI32, 1), r1, end);
    SpansIns(im, at + 7, Arith(SUB), r2, end);
    SpansIns(im, at + 8, Jmp(NestedStart(n)), r3, end);
    SpansDef(im, at + 13, NestedEnd(n), Ins(Pop, Done), end);
  }

  lemma {:induction false} OffsetLoaded(im: Image, at: int, rest: Asm, end: int)
    requires Spans(im, at, RowOffset(rest), end)
    ensures Spans(im, at + 18, rest, end)
  {
    hide Spans;
    var r9 := Ins(Arith(ADD), rest);
    var r8 := Ins(Dup(2), r9);
    var r7 := Ins(Arith(ADD), r8);
    var r6 := Ins(Push(UI32, 4), r7);
    var r5 := Ins(Arith(MUL), r6);
    SpansIns(im, at, Push(UI32, ELEMENT), r5, end);
    SpansIns(im, at + 6, Arith(MUL), r6, end);
    SpansIns(im, at + 7, Push(UI32, 4), r7, end);
    SpansIns(im, at + 13, Arith(ADD), r8, end);
    SpansIns(im, at + 14, Dup(2), r9, end);
    SpansIns(im, at + 17, Arith(ADD), rest, end);
  }

  /** The piece of the loop behind RowAddress. */
  lemma {:induction false} AddressLoaded(im: Image, at: int, rest: Asm, end: int)
    requires Spans(im, at, RowAddress(rest), end)
    ensures Spans(im, at + 27, rest, end)
  {
    hide Spans, RowOffset;
    var r3 := Ins(Arith(SUB), RowOffset(rest));
    var r2 := Ins(Dup(1), r3);
    SpansIns(im, at, Dup(1), Ins(Load(UI32), r2), end);
    SpansIns(im, at + 3, Load(UI32), r2, end);
    SpansIns(im, at + 5, Dup(1), r3, end);
    SpansIns(im, at + 8, Arith(SUB), RowOffset(rest), end);
    OffsetLoaded(im, at + 9, rest, end);
  }

  lemma {:induction false} LoopIsLoaded(im: Image, at: int, n: nat, depth: nat, nested: Asm, end: int)
    requires Spans(im, at, Def(NestedStart(n), RowLoop(n, depth, nested)), end)
    ensures LoopLoaded(im, n, RowLoop(n, depth, nested), end)
  {
    hide Spans, RowAddress, AfterRow;
    var tail := Seq(nested, AfterRow(n));
    var dup := Dup(4 * (depth + 1) - 1);
    var address := RowAddress(Ins(dup, tail));
    SpansDef(im, at, NestedStart(n), RowLoop(n, depth, nested), end);
    SpansIns(im, at, Dup(0), Ins(Jez(NestedEnd(n)), address), end);
    SpansIns(im, at + 3, Jez(NestedEnd(n)), address, end);
    AddressLoaded(im, at + 8, Ins(dup, tail), end);
    SpansIns(im, at + 35, dup, tail, end);
    SpansSeq(im, at + 38, nested, AfterRow(n), end);
    AfterRowLoaded(im, at + 38 + Length(nested), n, end);
  }

  lemma {:induction false} RowSums(p: nat, i: nat, length: nat)
    requires i < length < W32 && ELEMENT * i + 4 < W32 && p < W32
    ensures Apply(SUB, Value(UI32, length), Value(UI32, length - i)) == Outcome.Ok(Value(UI32, i))
    ensures Apply(MUL, Value(UI32, i), Value(UI32, ELEMENT)) == Outcome.Ok(Value(UI32, ELEMENT * i))
    ensures Apply(ADD, Value(UI32, ELEMENT * i), Value(UI32, 4)) == Outcome.Ok(Value(UI32, ELEMENT * i + 4))
    ensures Apply(ADD, Value(UI32, ELEMENT * i + 4), Value(PTR, p)) == Outcome.Ok(Value(PTR, RowPointer(p, i)))
    ensures Apply(SUB, Value(UI32, length - i), Value(UI32, 1)) == Outcome.Ok(Value(UI32, length - i - 1))
  {
    hide Apply, ToWord;
    UnsignedDifference(length, length - i);
    UnsignedDifference(length - i, 1);
    UnsignedElements(i);
    PointerSum(ELEMENT * i + 4, p);
  }

  /** Where the code stores the pointer to row i, in 32-bit arithmetic. */
  function RowPointer(p: int, i: int): (a: nat)
    ensures IsWord(a)
  {
    ToWord(ElementAddress(p, i))
  }

  lemma {:induction false} UnsignedDifference(x: nat, y: nat)
    requires y <= x < W32
    ensures Apply(SUB, Value(UI32, x), Value(UI32, y)) == Outcome.Ok(Value(UI32, x - y))
  {
    assert Apply(SUB, Value(UI32, x), Value(UI32, y)) == Sub(Value(UI32, x), Value(UI32, y));
  }

  lemma {:induction false} UnsignedElements(i: nat)
    requires ELEMENT * i + 4 < W32
    ensures Apply(MUL, Value(UI32, i), Value(UI32, ELEMENT)) == Outcome.Ok(Value(UI32, ELEMENT * i))
    ensures Apply(ADD, Value(UI32, ELEMENT * i), Value(UI32, 4)) == Outcome.Ok(Value(UI32, ELEMENT * i + 4))
  {
    hide Apply;
    UnsignedQuadruple(i);
    UnsignedSum(ELEMENT * i, 4);
  }

  lemma {:induction false} PointerSum(x: nat, p: nat)
    requires x < W32 && p < W32
    ensures Apply(ADD, Value(UI32, x), Value(PTR, p)) == Outcome.Ok(Value(PTR, ToWord(p + x)))
  {
    hide Sub, Mul, Div, Mod, Bitwise, ShiftLeft, ShiftRight, Compare;
  }

  /** Row i goes to element i: (length - left) * 4 + 4 behind the array pointer. */
  lemma {:induction false} SimRowAddress(im: Image, s: State, n: nat, t: State, rest: Asm, end: int, B: seq<Value>,
          p: nat, i: nat, length: nat)
    returns (u: State)
    requires At(im, s, n, t, RowAddress(rest), end) && i < length < W32 && ELEMENT * i + 4 < W32 && p < W32
    requires t.stack == B + [Value(PTR, p), Value(UI32, length - i)] && |B| + 4 <= MAX_OPERANDS
    requires Read32(t.mem, p) == length && InPtr(t, p) && Aligned(p)
    ensures At(im, s, n, u, rest, end) && u == t.(pc := u.pc, stack := t.stack + [Value(PTR, RowPointer(p, i))])
  {
    hide Run, Step, Execute, Reaches, Spans, Loaded, Length, Read32, Get, Apply, RowPointer, InOnePage;
    AlignedInPage(p);
    var P, K, L, S := Value(PTR, p), Value(UI32, length - i), Value(UI32, length), t.stack;
    RowSums(p, i, length);
    var r9 := Ins(Arith(ADD), rest);
    var r8 := Ins(Dup(2), r9);
    var r7 := Ins(Arith(ADD), r8);
    var r6 := Ins(Push(UI32, 4), r7);
    var r5 := Ins(Arith(MUL), r6);
    var r4 := RowOffset(rest);
    var r3 := Ins(Arith(SUB), r4);
    var r2 := Ins(Dup(1), r3);
    var t1 := DoDup(im, s, n, t, 1, Ins(Load(UI32), r2), end);
    assert t1.stack == S + [P];
    var t2 := DoLoad(im, s, n + 1, t1, UI32, r2, end, S, P);
    var t3 := DoDup(im, s, n + 2, t2, 1, r3, end);
    assert t3.stack == S + [L, K];
    var t4 := DoArith(im, s, n + 3, t3, SUB, r4, end, S, L, K, Value(UI32, i));
    var t5 := DoPush(im, s, n + 4, t4, UI32, ELEMENT, r5, end);
    assert t5.stack == S + [Value(UI32, i), Value(UI32, ELEMENT)];
    var t6 := DoArith(im, s, n + 5, t5, MUL, r6, end, S, Value(UI32, i), Value(UI32, ELEMENT),
      Value(UI32, ELEMENT * i));
    var t7 := DoPush(im, s, n + 6, t6, UI32, 4, r7, end);
    assert t7.stack == S + [Value(UI32, ELEMENT * i), Value(UI32, 4)];
    var t8 := DoArith(im, s, n + 7, t7, ADD, r8, end, S, Value(UI32, ELEMENT * i), Value(UI32, 4),
      Value(UI32, ELEMENT * i + 4));
    var t9 := DoDup(im, s, n + 8, t8, 2, r9, end);
    assert t9.stack == S + [Value(UI32, ELEMENT * i + 4), P];
    u := DoArith(im, s, n + 9, t9, ADD, rest, end, S, Value(UI32, ELEMENT * i + 4), P, Value(PTR, RowPointer(p, i)));
    AtWeaken(im, s, n + 10, n, u, rest, end);
  }

  /** Store the row, count down, and jump back. */
  lemma {:induction false} SimAfterRow(im: Image, s: State, n: nat, t: State, k: nat, loop: Asm, end: int, stop: int,
          B: seq<Value>, p: nat, i: nat, length: nat, c: nat, q: nat)
    returns (u: State)
    requires At(im, s, n, t, AfterRow(k), stop) && LoopLoaded(im, k, loop, end)
    requires i < length < W32 && IsWord(c) && q < W32 && InPtr(t, c) && |B| + 3 <= MAX_OPERANDS
    requires Aligned(c) && t.dataStart <= c
    requires t.stack == B + [Value(PTR, p), Value(UI32, length - i), Value(PTR, c)] + [Value(PTR, q)]
    ensures At(im, s, n, u, loop, end)
    ensures u == t.(pc := u.pc, stack := B + [Value(PTR, p), Value(UI32, length - (i + 1))],
      mem := Write32(t.mem, c, q))
  {
    hide Run, Step, Execute, Reaches, Spans, Loaded, Length, Write32, Apply, InOnePage;
    AlignedInPage(c);
    UnsignedDifference(length - i, 1);
    var P, K := Value(PTR, p), Value(UI32, length - i);
    var r3 := Def(NestedEnd(k), Ins(Pop, Done));
    var r2 := Ins(Jmp(NestedStart(k)), r3);
    var r1 := Ins(Arith(SUB), r2);
    assert t.stack == (B + [P, K]) + [Value(PTR, c), Value(PTR, q)];
    var t1 := DoStore(im, s, n, t, Ins(Push(UI32, 1), r1), stop, B + [P, K], Value(PTR, c), Value(PTR, q));
    var t2 := DoPush(im, s, n + 1, t1, UI32, 1, r1, stop);
    assert t2.stack == (B + [P]) + [K, Value(UI32, 1)];
    var t3 := DoArith(im, s, n + 2, t2, SUB, r2, stop, B + [P], K, Value(UI32, 1), Value(UI32, length - i - 1));
    u := DoJmp(im, s, n + 3, t3, NestedStart(k), r3, stop);
    ReachesWeaken(im.code, s, n + 4, n, u);
  }

  /** A row pointer that would go outside every region stops the machine. */
  lemma {:induction false} SimBadRow(im: Image, s: State, n: nat, t: State, k: nat, stop: int, S: seq<Value>, c: nat,
          q: nat) returns (u: State)
    requires At(im, s, n, t, AfterRow(k), stop) && IsWord(c) && q < W32 && !InPtr(t, c)
    requires t.stack == S + [Value(PTR, c), Value(PTR, q)]
    ensures Reaches(im.code, s, n, u) && u.status == Failed(Internal)
  {
    hide Run, Loaded, Reaches, WriteTyped, InOnePage, Step;
    DoIns(im, s, n, t, Store, AfterRow(k).rest, stop);
    u := Execute(im.code, After(t, Store), Store);
    ReachesWeaken(im.code, s, n + 1, n, u);
  }

  // ---------------------------------------------------------------- the recursion

  /** The array pointer replaces the length, and the heap is the one that was built. A fault stops the
      machine; which one is known as long as the row pointers stay inside their blocks. */
  ghost predicate BuildDone(im: Image, s: State, n: nat, t: State, u: State, end: int, B: seq<Value>, exact: bool,
                            r: Outcome<(Heap.HeapState, Arr)>) {
    match r
    case Ok((h, a)) => a.p >= 0 && PointerDone(im, s, n, t, u, end, B, h, a.p)
    case Err(f) => Reaches(im.code, s, n, u) && u.status.Failed? && (exact ==> u.status == Failed(f))
  }

  ghost predicate RowsDone(im: Image, s: State, n: nat, t: State, u: State, end: int, B: seq<Value>, p: nat,
          exact: bool, r: Outcome<(Heap.HeapState, seq<Arr>)>) {
    match r
    case Ok((h, _)) => PointerDone(im, s, n, t, u, end, B, h, p)
    case Err(f) => Reaches(im.code, s, n, u) && u.status.Failed? && (exact ==> u.status == Failed(f))
  }

  ghost predicate PointerDone(im: Image, s: State, n: nat, t: State, u: State, end: int, B: seq<Value>,
          h: Heap.HeapState, p: nat) {
    u.status == Running && Reaches(im.code, s, n, u) && u.pc == end && WithHeap(t, u, h, B + [Value(PTR, p)])
  }

  /** The largest number of dimensions whose depths all fit into the byte the VM reads. */
  const MAX_LEVELS := 65

  /** Depth of the `dup` that fetches the length of a level. */
  function LevelDepth(level: nat): int {
    4 * level - 1
  }

  /** Every such depth survives the fetch, which keeps its low byte only, exactly up to 65 dimensions. */
  lemma {:induction false} DepthsExact(levels: nat)
    ensures (forall k | 1 <= k < levels :: LevelDepth(k) % 256 == LevelDepth(k)) <==> levels <= MAX_LEVELS
  {
    if levels > MAX_LEVELS {
      assert LevelDepth(65) % 256 == 3;
    }
  }

  /** Room on the operand stack and depths that `dup` can encode. */
  predicate StackReady(B: seq<Value>, depth: nat, levels: nat) {
    |B| + 3 * levels + 1 <= MAX_OPERANDS && depth + levels <= MAX_LEVELS
  }

  /** The bytes that the first i rows have taken are gone. */
  predicate RowsPaid(t: State, i: nat) {
    8 * i + HeapLaws.SumFree(t.free) <= MAX_ADDR
  }

  /** The code of an array allocation does what Build does, for lengths of any size. */
  lemma {:induction false} SimAlloc(im: Image, s: State, n: nat, t: State, dims: seq<int>, depth: nat, k: nat,
          end: int, B: seq<Value>, live: Blocks)
    returns (u: State)
    requires dims != [] && WordLengths(dims) && At(im, s, n, t, CodeAlloc(|dims|, depth, k), end)
    requires t.stack == B + [Value(UI32, dims[0])]
    requires DimsBelow(B, depth, dims) && StackReady(B, depth, |dims|) && HeapSplit(t, live)
    ensures BuildDone(im, s, n, t, u, end, B, RowsFit(dims), Build(t.HeapView(), dims, t.sp))
    decreases |dims|, 0
  {
    hide Run, Step, Execute, Reaches, Spans, Loaded, Length, HeapSplit, Heap.Allocate, Read32, Write32, ArrayBytes,
      DimsBelow, AllocHead, RowLoop, LoopLoaded, ArrayReady, RowsFit;
    var loop := RowLoop(k, depth, CodeAlloc(|dims| - 1, depth + 1, k + 2));
    var rest := if |dims| == 1 then Done else Ins(Dup(0), Ins(Load(UI32), Def(NestedStart(k), loop)));
    var live1;
    u, live1 := SimHead(im, s, n, t, rest, end, B, dims[0], live);
    if Heap.Allocate(t.HeapView(), ArrayBytes(dims[0]), t.sp).Ok? {
      var (h, p) := Heap.Allocate(t.HeapView(), ArrayBytes(dims[0]), t.sp).value;
      var u1 := u;
      if |dims| == 1 {
        AtEnd(im, s, n, u1, Done, end);
      } else {
        u := SimLevel(im, s, n, u1, dims, depth, k, end, B, p, live1);
      }
    }
  }

  /** From the fresh array on: its length becomes the number of rows left, and the loop runs. */
  lemma {:induction false} SimLevel(im: Image, s: State, n: nat, t: State, dims: seq<int>, depth: nat, k: nat,
          end: int, B: seq<Value>, p: nat, live: Blocks)
    returns (u: State)
    requires |dims| > 1 && WordLengths(dims) && t.stack == B + [Value(PTR, p)]
    requires At(im, s, n, t, Ins(Dup(0), Ins(Load(UI32),
      Def(NestedStart(k), RowLoop(k, depth, CodeAlloc(|dims| - 1, depth + 1, k + 2))))), end)
    requires DimsBelow(B, depth, dims) && StackReady(B, depth, |dims|) && ArrayReady(t, live, p, dims[0])
    ensures RowsDone(im, s, n, t, u, end, B, p, RowsFit(dims), BuildRows(t.HeapView(), p, 0, dims, t.sp))
    decreases |dims| - 1, dims[0], 2
  {
    hide Run, Step, Execute, Reaches, Spans, Loaded, Length, Heap.Allocate, Read32, Write32, ArrayBytes, DimsBelow,
      RowLoop, LoopLoaded, Partition, RowsFit;
    var loop := RowLoop(k, depth, CodeAlloc(|dims| - 1, depth + 1, k + 2));
    var P := Value(PTR, p);
    ArrayBlock(t.HeapView(), live, t.hb, p);
    AlignedInPage(p);
    var t1 := DoDup(im, s, n, t, 0, Ins(Load(UI32), Def(NestedStart(k), loop)), end);
    assert t1.stack == (B + [P]) + [P];
    var t2 := DoLoad(im, s, n + 1, t1, UI32, Def(NestedStart(k), loop), end, B + [P], P);
    LoopIsLoaded(im, t2.pc, k, depth, CodeAlloc(|dims| - 1, depth + 1, k + 2), end);
    SpansDef(im, t2.pc, NestedStart(k), loop, end);
    AtWeaken(im, s, n + 2, n, t2, Def(NestedStart(k), loop), end);
    assert t2.stack == B + [P, Value(UI32, dims[0])];
    assert t2.HeapView() == t.HeapView();
    NothingPaid(t2, live);
    u := SimRows(im, s, n, t2, dims, depth, k, end, B, p, 0, live);
  }

  lemma {:induction false} NothingPaid(t: State, live: Blocks)
    requires Partition(t.free, t.hp, live, t.hb)
    ensures RowsPaid(t, 0)
  {
    SumFreeBounds(t.free, t.hb);
  }

  lemma {:induction false} ReadySame(t: State, u: State, live: Blocks, p: nat, length: int)
    requires ArrayReady(t, live, p, length) && u == t.(pc := u.pc, stack := u.stack)
    ensures ArrayReady(u, live, p, length)
  {
    hide Partition, Read32;
  }

  lemma {:induction false} SimRows(im: Image, s: State, n: nat, t: State, dims: seq<int>, depth: nat, k: nat, end: int,
          B: seq<Value>, p: nat, i: nat, live: Blocks)
    returns (u: State)
    requires |dims| > 1 && WordLengths(dims) && i <= dims[0] && t.stack == B + [Value(PTR, p), Value(UI32, dims[0] - i)]
    requires var loop := RowLoop(k, depth, CodeAlloc(|dims| - 1, depth + 1, k + 2));
      At(im, s, n, t, loop, end) && LoopLoaded(im, k, loop, end)
    requires DimsBelow(B, depth, dims) && StackReady(B, depth, |dims|) && ArrayReady(t, live, p, dims[0])
    requires RowsPaid(t, i)
    ensures RowsDone(im, s, n, t, u, end, B, p, RowsFit(dims), BuildRows(t.HeapView(), p, i, dims, t.sp))
    decreases |dims| - 1, dims[0] - i, 1
  {
    hide Run, Step, Execute, Reaches, Spans, Loaded, Length, ArrayReady, Read32, DimsBelow, RowAddress, Build, RowsFit,
      HeapLaws.SumFree;
    var P, K := Value(PTR, p), Value(UI32, dims[0] - i);
    var body := Ins(Dup(4 * (depth + 1) - 1), Seq(CodeAlloc(|dims| - 1, depth + 1, k + 2), AfterRow(k)));
    var t1 := DoDup(im, s, n, t, 0, Ins(Jez(NestedEnd(k)), RowAddress(body)), end);
    assert t1.stack == t.stack + [K];
    var t2 := DoBranch(im, s, n + 1, t1, true, NestedEnd(k), RowAddress(body), end, t.stack, K);
    assert t2.HeapView() == t.HeapView();
    if i == dims[0] {
      assert t.stack == (B + [P]) + [K];
      assert At(im, s, n + 2, t2, Ins(Pop, Done), end);
      u := DoPop(im, s, n + 2, t2, Done, end, B + [P], K);
      AtEnd(im, s, n + 3, u, Done, end);
      ReachesWeaken(im.code, s, n + 3, n, u);
    } else {
      AtWeaken(im, s, n + 2, n, t2, RowAddress(body), end);
      ReadySame(t, t2, live, p, dims[0]);
      u := SimRow(im, s, n, t2, dims, depth, k, end, B, p, i, live);
    }
  }

  lemma {:induction false} SimRow(im: Image, s: State, n: nat, t: State, dims: seq<int>, depth: nat, k: nat, end: int,
          B: seq<Value>, p: nat, i: nat, live: Blocks)
    returns (u: State)
    requires |dims| > 1 && WordLengths(dims) && i < dims[0] && t.stack == B + [Value(PTR, p), Value(UI32, dims[0] - i)]
    requires At(im, s, n, t, RowAddress(Ins(Dup(4 * (depth + 1) - 1),
      Seq(CodeAlloc(|dims| - 1, depth + 1, k + 2), AfterRow(k)))), end)
    requires LoopLoaded(im, k, RowLoop(k, depth, CodeAlloc(|dims| - 1, depth + 1, k + 2)), end)
    requires DimsBelow(B, depth, dims) && StackReady(B, depth, |dims|) && ArrayReady(t, live, p, dims[0])
    requires RowsPaid(t, i)
    ensures RowsDone(im, s, n, t, u, end, B, p, RowsFit(dims), BuildRows(t.HeapView(), p, i, dims, t.sp))
    decreases |dims| - 1, dims[0] - i, 0
  {
    hide Run, Step, Execute, Reaches, Spans, Loaded, Length, Partition, Read32, Write32, DimsBelow, RowAddress,
      RowLoop, AfterRow, LoopLoaded, CodeAlloc, Build, InPtr, RowsFit, HeapLaws.SumFree, RowPointer;
    var P, K, C := Value(PTR, p), Value(UI32, dims[0] - i), Value(PTR, RowPointer(p, i));
    var nested := CodeAlloc(|dims| - 1, depth + 1, k + 2);
    var d := 4 * (depth + 1) - 1;
    LengthReadable(t, live, p, i, dims[0]);
    var t1 := SimRowAddress(im, s, n, t, Ins(Dup(d), Seq(nested, AfterRow(k))), end, B, p, i, dims[0]);
    var B1 := B + [P, K, C];
    assert t1.stack == B1;
    DupFetchesLength(B, depth, dims, [P, K, C]);
    var t2 := DoDup(im, s, n, t1, d, Seq(nested, AfterRow(k)), end);
    assert t2.stack == B1 + [Value(UI32, dims[1])] && t2.HeapView() == t.HeapView();
    DimsDeeper(B, depth, dims, [P, K, C]);
    SpansSeq(im, t2.pc, nested, AfterRow(k), end);
    var mid := t2.pc + Length(nested);
    assert dims[1..][0] == dims[1];
    var u1 := SimAlloc(im, s, n + 1, t2, dims[1..], depth + 1, k + 2, mid, B1, live);
    var r := Build(t.HeapView(), dims[1..], t.sp);
    u := u1;
    ReachesWeaken(im.code, s, n + 1, n, u1);
    if r.Ok? {
      u := SimNextRow(im, s, n, t, u1, dims, depth, k, end, B, p, i, live);
    } else {
      RestFits(dims);
    }
  }

  lemma {:induction false} RestFits(dims: seq<int>)
    requires |dims| > 1 && 0 < dims[0] && dims[0] % WRAP < WRAP - 2
    ensures RowsFit(dims) ==> RowsFit(dims[1..])
  {
  }

  /** After a row has been built: its pointer is stored, and the loop goes on. With 2^30 rows or more the
      pointer may go anywhere or nowhere, and the machine fails sooner or later. */
  lemma {:induction false} SimNextRow(im: Image, s: State, n: nat, t: State, u1: State, dims: seq<int>, depth: nat,
          k: nat, end: int, B: seq<Value>, p: nat, i: nat, live: Blocks)
    returns (u: State)
    requires |dims| > 1 && WordLengths(dims) && i < dims[0] && Build(t.HeapView(), dims[1..], t.sp).Ok?
    requires var (h1, a) := Build(t.HeapView(), dims[1..], t.sp).value;
      && a.p >= 0 && At(im, s, n, u1, AfterRow(k), end)
      && WithHeap(t, u1, h1, B + [Value(PTR, p), Value(UI32, dims[0] - i), Value(PTR, RowPointer(p, i))]
           + [Value(PTR, a.p)])
    requires LoopLoaded(im, k, RowLoop(k, depth, CodeAlloc(|dims| - 1, depth + 1, k + 2)), end)
    requires DimsBelow(B, depth, dims) && StackReady(B, depth, |dims|) && ArrayReady(t, live, p, dims[0])
    requires RowsPaid(t, i)
    ensures RowsDone(im, s, n, t, u, end, B, p, RowsFit(dims), BuildRows(t.HeapView(), p, i, dims, t.sp))
    decreases |dims| - 1, dims[0] - i - 1, 2
  {
    hide Run, Step, Execute, Reaches, Spans, Loaded, Length, Partition, Read32, Write32, DimsBelow, RowAddress,
      RowLoop, AfterRow, LoopLoaded, CodeAlloc, Build, InPtr, RowsFit, HeapLaws.SumFree, RowPointer, ArrayReady;
    var (h1, a) := Build(t.HeapView(), dims[1..], t.sp).value;
    var c := RowPointer(p, i);
    var loop := RowLoop(k, depth, CodeAlloc(|dims| - 1, depth + 1, k + 2));
    var live1 := RowBuilt(t, u1, live, p, i, dims, h1, a);
    RowFails(t, live, p, i, dims);
    if InPtr(u1, c) {
      RowPointerCalm(t, u1, live, p, i, dims[0]);
      var u2 := SimAfterRow(im, s, n, u1, k, loop, end, end, B, p, i, dims[0], c, a.p);
      assert ArrayReady(u2, live1, p, dims[0]);
      assert u2.HeapView() == h1.(mem := Write32(h1.mem, c, a.p));
      u := SimRows(im, s, n, u2, dims, depth, k, end, B, p, i + 1, live1);
      RowFails(u2, live1, p, i + 1, dims);
    } else {
      var S := B + [Value(PTR, p), Value(UI32, dims[0] - i)];
      assert u1.stack == S + [Value(PTR, c), Value(PTR, a.p)];
      u := SimBadRow(im, s, n, u1, k, end, S, c, a.p);
    }
  }

  /** Wherever a row pointer goes, it is aligned, and it may only be stored behind the code. */
  lemma {:induction false} RowPointerCalm(t: State, u: State, live: Blocks, p: nat, i: nat, length: int)
    requires ArrayReady(t, live, p, length) && InPtr(u, RowPointer(p, i))
    requires u.dataStart == t.dataStart && u.hb == t.hb && u.sp == t.sp
    ensures Aligned(RowPointer(p, i)) && u.dataStart <= RowPointer(p, i)
  {
    hide Read32, FreeAligned;
    ArrayBlock(t.HeapView(), live, t.hb, p);
  }

  /** With 2^30 rows or more there is an end to the memory. */
  lemma {:induction false} RowFails(t: State, live: Blocks, p: nat, i: nat, dims: seq<int>)
    requires |dims| > 1 && WordLengths(dims) && ArrayReady(t, live, p, dims[0]) && RowsPaid(t, i)
    ensures dims[0] >= WRAP ==> i < dims[0] && BuildRows(t.HeapView(), p, i, dims, t.sp).Err? && !RowsFit(dims)
  {
    hide HeapLaws.SumFree, Read32, BuildRows;
    if dims[0] >= WRAP {
      WideNeverBuilt(t.HeapView(), p, i, dims, t.sp, t.hb);
    }
  }

  /** The length may be read. */
  lemma {:induction false} LengthReadable(t: State, live: Blocks, p: nat, i: nat, length: int)
    requires ArrayReady(t, live, p, length) && RowsPaid(t, i)
    ensures InPtr(t, p) && p < W32 && ELEMENT * i + 4 < W32
  {
    hide Read32, HeapLaws.SumFree;
    ArrayBlock(t.HeapView(), live, t.hb, p);
    SumFreeBounds(t.free, t.hb);
  }

  /** After a row has been built and its pointer stored, the outer array is as before and the heap is
      partitioned; below 2^30 rows the pointer goes to its element. */
  lemma {:induction false} RowBuilt(t: State, u1: State, live: Blocks, p: nat, i: nat, dims: seq<int>,
          h1: Heap.HeapState, a: Arr) returns (live1: Blocks)
    requires |dims| > 1 && WordLengths(dims) && i < dims[0] && ArrayReady(t, live, p, dims[0]) && RowsPaid(t, i)
    requires Build(t.HeapView(), dims[1..], t.sp) == Outcome.Ok((h1, a)) && WithHeap(t, u1, h1, u1.stack)
    ensures a.p < W32 && (dims[0] < WRAP ==> InPtr(u1, RowPointer(p, i)) && RowPointer(p, i) == ElementAddress(p, i))
    ensures forall u2: State | u2 == u1.(pc := u2.pc, stack := u2.stack,
      mem := Write32(u1.mem, RowPointer(p, i), a.p)) ::
      ArrayReady(u2, live1, p, dims[0]) && RowsPaid(u2, i + 1)
  {
    hide Partition, Read32, Write32, Build, SameBut, Tree, HeapLaws.SumFree, Headers, HeapLaws.Canonical, FreeAligned;
    live1 := BuildSplits(t.HeapView(), live, t.hb, dims[1..], t.sp);
    BuildAligned(t.HeapView(), dims[1..], t.sp);
    ArrayBlock(h1, live1, t.hb, p);
    PartitionCanonical(t.free, t.hp, live, t.hb);
    SumFreeBounds(t.free, t.hb);
    BuildTakes(t.HeapView(), dims[1..], t.sp, t.hb);
    LengthUnmoved(t.mem, h1.mem, live, p, i, a.p, t.sp);
  }

  lemma {:induction false} LengthUnmoved(m: Mem, m1: Mem, live: Blocks, p: nat, i: nat, q: int, top: int)
    requires SameBut(m, m1, live, 0, 0, top) && p - HEADER in live && live[p - HEADER] >= HEADER + 4
    requires HEADER <= p < W32 && 8 * i <= MAX_ADDR
    ensures Read32(Write32(m1, RowPointer(p, i), q), p) == Read32(m, p)
  {
    hide Get, Write32, Read32;
    Read32Other(m1, RowPointer(p, i), q, p);
    FrontKept(m, m1, live, p, 0, 0, top);
  }
}
