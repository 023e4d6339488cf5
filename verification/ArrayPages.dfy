/** Which arrays lie on the pages as they do on the flat map: the words of a block stay in their pages when the
    block is aligned or ends before its page does, and exactly then. */
module ArrayPages {
  import opened Words
  import opened Isa
  import opened Source
  import opened FlatMemory
  import opened Heap
  import opened HeapLaws
  import opened HeapRuns
  import opened Pages
  import opened Accesses
  import opened ArrayTrees

  predicate Aligned(a: int) {
    a % 4 == 0
  }

  lemma {:induction false} AlignedInPage(a: int)
    requires Aligned(a)
    ensures InOnePage(a, 4)
  {
  }

  // ---------------------------------------------------------------- the words of a block

  /** A block that starts at a multiple of four, or does not reach beyond the page it starts in. */
  predicate BlockInPages(b: int, size: int) {
    Aligned(b) || (size >= 0 && InOnePage(b, size))
  }

  /** Every word of a block of whole words stays in its page if and only if the block is aligned or ends before
      its page does. */
  lemma {:induction false} BlockWordsExact(b: int, words: nat)
    ensures BlockInPages(b, 4 * words) <==> forall k: nat | k < words :: InOnePage(b + 4 * k, 4)
  {
    if BlockInPages(b, 4 * words) {
      forall k: nat | k < words
        ensures InOnePage(b + 4 * k, 4)
      {
        WordInPages(b, 4 * words, k);
      }
    } else {
      var k := FirstCrossing(b, words);
      assert !InOnePage(b + 4 * k, 4);
    }
  }

  lemma {:induction false} WordInPages(b: int, size: int, k: nat)
    requires BlockInPages(b, size) && 4 * k + 4 <= size
    ensures InOnePage(b + 4 * k, 4)
  {
    if Aligned(b) {
      AlignedInPage(b + 4 * k);
    } else {
      var q, r := b / PAGE_SIZE, b % PAGE_SIZE;
      ModUnique(b + 4 * k, PAGE_SIZE, q, r + 4 * k);
    }
  }

  /** The word of an unaligned block that the first page end cuts in two. */
  lemma {:induction false} FirstCrossing(b: int, words: nat) returns (k: nat)
    requires !BlockInPages(b, 4 * words)
    ensures k < words && !InOnePage(b + 4 * k, 4)
  {
    var q, r := b / PAGE_SIZE, b % PAGE_SIZE;
    k := (PAGE_SIZE - r) / 4;
    ModUnique(b + 4 * k, PAGE_SIZE, q, r + 4 * k);
  }

  /** An array of 1023 elements behind a program of ten bytes: element 1019 begins two bytes before the end of
      the first page. */
  lemma {:induction false} CutElementExample()
    ensures var p := 10 + HEADER;
      !InOnePage(ElementAddress(p, 1019), 4) && !BlockInPages(10, BlockSize(1023, Full))
  {
  }

  // ---------------------------------------------------------------- aligned heaps

  /** Every live block has its words inside pages. */
  ghost predicate BlocksInPages(live: Blocks) {
    forall b | b in live :: BlockInPages(b, live[b])
  }

  /** Every free block starts at a multiple of four. */
  predicate FreeAligned(fl: FreeList) {
    forall i | 0 <= i < |fl| :: Aligned(fl[i].addr)
  }

  /** A fresh heap is aligned exactly when the code and the data before it end at a multiple of four. */
  lemma {:induction false} InitiallyAligned(hb: int)
    ensures FreeAligned(InitialList(hb)) <==> Aligned(hb)
  {
    assert InitialList(hb)[0].addr == hb;
  }

  lemma {:induction false} TakeAligned(fl: FreeList, i: nat, need: int)
    requires FreeAligned(fl) && i < |fl| && need % 4 == 0
    ensures FreeAligned(Take(fl, i, need))
  {
    var rest := Take(fl, i, need);
    forall k | 0 <= k < |rest|
      ensures Aligned(rest[k].addr)
    {
      if fl[i].size == need {
        assert rest[k] == if k < i then fl[k] else fl[k + 1];
      } else if k != i {
        assert rest[k] == fl[k];
      } else {
        assert Aligned(fl[i].addr);
      }
    }
  }

  /** Requests of whole words keep an aligned heap aligned and are granted at aligned addresses. */
  lemma {:induction false} AllocateAligned(h: HeapState, size: int, sp: int)
    requires FreeAligned(h.free) && IsWord(size) && size % 4 == 0 && Allocate(h, size, sp).Ok?
    ensures var (h', p) := Allocate(h, size, sp).value; FreeAligned(h'.free) && Aligned(p)
  {
    hide Take, ZeroFrom, Write32;
    var i := FirstFit(h.free, Need(size));
    assert Aligned(h.free[i].addr);
    TakeAligned(h.free, i, Need(size));
  }

  lemma {:induction false} RequestAligned(length: int)
    requires IsWord(length)
    ensures ArrayBytes(length) % 4 == 0
  {
    hide ArrayBytes;
    RequestExact(length);
  }

  /** All blocks of a tree that is built on an aligned heap are aligned, and so is what is left. */
  lemma {:induction false} BuildAligned(h: HeapState, dims: seq<int>, sp: int)
    requires dims != [] && WordLengths(dims) && FreeAligned(h.free) && Build(h, dims, sp).Ok?
    ensures var (h', a) := Build(h, dims, sp).value;
      FreeAligned(h'.free) && Aligned(a.p) && forall b | b in Headers(a) :: Aligned(b)
    decreases |dims|, 0
  {
    hide FreeAligned, Allocate, Write32, ArrayBytes;
    RequestAligned(dims[0]);
    AllocateAligned(h, ArrayBytes(dims[0]), sp);
    if |dims| > 1 {
      var (h1, p) := Allocate(h, ArrayBytes(dims[0]), sp).value;
      RowsAligned(h1.(mem := Write32(h1.mem, p, dims[0])), p, 0, dims, sp);
    }
  }

  lemma {:induction false} RowsAligned(h: HeapState, p: int, i: int, dims: seq<int>, sp: int)
    requires |dims| > 1 && WordLengths(dims) && FreeAligned(h.free) && BuildRows(h, p, i, dims, sp).Ok?
    ensures var (h', rows) := BuildRows(h, p, i, dims, sp).value;
      FreeAligned(h'.free) && forall b | b in RowHeaders(rows) :: Aligned(b)
    decreases |dims| - 1, 1, dims[0] - i
  {
    hide FreeAligned, Build, Write32, Headers;
    if i < dims[0] {
      BuildAligned(h, dims[1..], sp);
      var (h1, a) := Build(h, dims[1..], sp).value;
      var h2 := h1.(mem := Write32(h1.mem, ElementAddress(p, i), a.p));
      RowsAligned(h2, p, i + 1, dims, sp);
      var rows := BuildRows(h2, p, i + 1, dims, sp).value.1;
      assert ([a] + rows)[1..] == rows;
    }
  }

  /** The writes of an allocation on an aligned heap above the data region. */
  lemma {:induction false} AllocCalm(dataStart: int, h: HeapState, size: int, sp: int, hb: int)
    requires Canonical(h.free, hb) && dataStart <= hb && FreeAligned(h.free) && IsWord(size)
    ensures AllCalm(dataStart, AllocWrites(h, size, sp))
  {
    hide ZeroBytes, Allocate, InOnePage;
    if size != 0 && Allocate(h, size, sp) != Err(OutOfMemory) {
      var i := FirstFit(h.free, Need(size));
      assert i < |h.free| by { Granted(h, size, sp); }
      var a := h.free[i].addr;
      assert Aligned(a);
      AlignedInPage(a);
      ZeroBytesCalm(dataStart, a + HEADER, size);
      var first := [WriteAt(a, Need(size), 4)];
      assert AllCalm(dataStart, first);
      CalmConcat(dataStart, first, ZeroBytes(a + HEADER, size));
    }
  }

  lemma {:induction false} Granted(h: HeapState, size: int, sp: int)
    requires IsWord(size) && size != 0 && Allocate(h, size, sp) != Err(OutOfMemory)
    ensures FirstFit(h.free, Need(size)) < |h.free|
  {
  }

  lemma {:induction false} ZeroBytesCalm(dataStart: int, a: int, n: nat)
    requires dataStart <= a
    ensures AllCalm(dataStart, ZeroBytes(a, n))
    decreases n
  {
    if n > 0 {
      ZeroBytesCalm(dataStart, a, n - 1);
    }
  }
}
