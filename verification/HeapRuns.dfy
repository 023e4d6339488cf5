/** What every allocation and release keeps: the heap is split between the free list and the live blocks. */
module HeapRuns {
  import opened Words
  import opened Isa
  import opened FlatMemory
  import opened Heap
  import opened HeapLaws

  /** Live blocks: address of the header, and size with the header. */
  type Blocks = map<int, int>

  ghost predicate Live(live: Blocks, x: int) {
    exists a | a in live :: a <= x < a + live[a]
  }

  ghost predicate Disjoint(live: Blocks) {
    forall a, b | a in live && b in live && a < b :: a + live[a] <= b
  }

  /** Every address of the heap is either free or in exactly one live block. */
  ghost predicate Partition(free: FreeList, hp: int, live: Blocks, hb: int) {
    && 0 <= hb <= hp <= MAX_ADDR
    && Canonical(free, hb)
    && (forall a | a in live :: hb <= a && live[a] > HEADER && a + live[a] <= hp)
    && Disjoint(live)
    && (forall x | hb <= x < MAX_ADDR :: Offers(free, x) <==> !Live(live, x))
    && SumFree(free) + SumLive(live) == MAX_ADDR - hb
  }

  /** A sound heap: it is partitioned, and the headers hold the sizes of their blocks. */
  ghost predicate HeapOk(h: HeapState, live: Blocks, hb: int) {
    && Partition(h.free, h.hp, live, hb)
    && forall a | a in live :: Read32(h.mem, a) == live[a]
  }

  lemma {:induction false} NonEmpty(live: Blocks)
    ensures live == map[] || exists a :: a in live
  {
    if forall a :: a !in live {
      assert live == map[];
    }
  }

  ghost function SomeKey(live: Blocks): (a: int)
    requires live != map[]
    ensures a in live
  {
    NonEmpty(live);
    var a :| a in live;
    a
  }

  ghost function SumLive(live: Blocks): int
    decreases |live|
  {
    if live == map[] then 0
    else
      var a := SomeKey(live);
      live[a] + SumLive(live - {a})
  }

  lemma {:induction false} SumLiveWithout(live: Blocks, a: int)
    requires a in live
    ensures SumLive(live) == live[a] + SumLive(live - {a})
    decreases |live|
  {
    var b := SomeKey(live);
    if a != b {
      SumLiveWithout(live - {b}, a);
      SumLiveWithout(live - {a}, b);
      assert live - {b} - {a} == live - {a} - {b};
    }
  }

  lemma {:induction false} SumLiveWith(live: Blocks, a: int, n: int)
    requires a !in live
    ensures SumLive(live[a := n]) == n + SumLive(live)
  {
    SumLiveWithout(live[a := n], a);
    assert live[a := n] - {a} == live;
  }

  // ---------------------------------------------------------------- sums of free lists

  lemma {:induction false} SumFreeConcat(f: FreeList, g: FreeList)
    ensures SumFree(f + g) == SumFree(f) + SumFree(g)
    decreases |f|
  {
    if f == [] {
      assert f + g == g;
    } else {
      SumFreeConcat(f[1..], g);
      assert (f + g)[1..] == f[1..] + g;
    }
  }

  lemma {:induction false} SumFreeSplit(f: FreeList, b: FreeBlock, g: FreeList)
    ensures SumFree(f + [b] + g) == SumFree(f) + b.size + SumFree(g)
  {
    SumFreeConcat(f + [b], g);
    SumFreeConcat(f, [b]);
    assert SumFree([b]) == b.size;
  }

  lemma {:induction false} SumAround(fl: FreeList, i: nat)
    requires i < |fl|
    ensures SumFree(fl) == SumFree(fl[..i]) + fl[i].size + SumFree(fl[i + 1..])
  {
    SumFreeSplit(fl[..i], fl[i], fl[i + 1..]);
    assert fl == fl[..i] + [fl[i]] + fl[i + 1..];
  }

  lemma {:induction false} SumTake(fl: FreeList, i: nat, need: int)
    requires i < |fl|
    ensures SumFree(Take(fl, i, need)) == SumFree(fl) - need
  {
    SumAround(fl, i);
    if fl[i].size == need {
      SumFreeConcat(fl[..i], fl[i + 1..]);
    } else {
      SumFreeSplit(fl[..i], FreeBlock(fl[i].size - need, fl[i].addr + need), fl[i + 1..]);
    }
  }

  lemma {:induction false} SumMerge(fl: FreeList, p: nat)
    requires p < |fl|
    ensures SumFree(MergeAt(fl, p)) == SumFree(fl)
  {
    if p + 1 < |fl| && fl[p].addr + fl[p].size == fl[p + 1].addr {
      SumAround(fl, p);
      SumAround(fl[p + 1..], 0);
      assert fl[p + 1..][1..] == fl[p + 2..];
      SumFreeSplit(fl[..p], FreeBlock(fl[p].size + fl[p + 1].size, fl[p].addr), fl[p + 2..]);
    }
  }

  lemma {:induction false} SumRelease(fl: FreeList, b: FreeBlock)
    ensures SumFree(Release(fl, b)) == SumFree(fl) + b.size
  {
    var i := InsertAt(fl, b.addr);
    var ins := fl[..i] + [b] + fl[i..];
    SumFreeSplit(fl[..i], b, fl[i..]);
    SumFreeConcat(fl[..i], fl[i..]);
    assert fl[..i] + fl[i..] == fl;
    if i == 0 {
      SumMerge(ins, 0);
    } else {
      SumMerge(ins, i - 1);
      var merged := MergeAt(ins, i - 1);
      SumMerge(merged, if |merged| < |ins| then i - 1 else i);
    }
  }

  // ---------------------------------------------------------------- a fresh heap

  lemma {:induction false} InitiallyOk(mem: Mem, hb: int)
    requires 0 <= hb < MAX_ADDR
    ensures HeapOk(HeapState(mem, InitialList(hb), hb), map[], hb)
  {
    var fl := InitialList(hb);
    assert SumFree(fl) == fl[0].size + SumFree(fl[1..]);
    forall x | hb <= x < MAX_ADDR
      ensures Offers(fl, x)
    {
      assert Within(fl[0], x);
    }
  }

  /** When everything is released the list is the single block of a fresh heap, whatever happened before. */
  lemma {:induction false} AllReleased(h: HeapState, hb: int)
    requires HeapOk(h, map[], hb) && hb < MAX_ADDR
    ensures h.free == InitialList(hb)
  {
    InitiallyOk(h.mem, hb);
    forall x
      ensures Offers(h.free, x) <==> Offers(InitialList(hb), x)
    {
      if !(hb <= x < MAX_ADDR) {
        assert !Offers(h.free, x) && !Offers(InitialList(hb), x);
      }
    }
    CanonicalUnique(h.free, InitialList(hb), hb);
  }

  // ---------------------------------------------------------------- allocation

  /** allocateBlock reports out of memory exactly when no free block could host the request below SP,
      although it looks at the first fitting block only. */
  lemma {:induction false} OutOfMemoryExact(h: HeapState, size: int, sp: int, hb: int)
    requires Canonical(h.free, hb) && 0 <= hb && 0 < size && size + HEADER < W32
    ensures Allocate(h, size, sp) == Err(OutOfMemory) <==>
      !exists i | 0 <= i < |h.free| :: h.free[i].size >= size + HEADER && h.free[i].addr + size + HEADER < sp
    ensures Allocate(h, size, sp).Ok? || Allocate(h, size, sp) == Err(OutOfMemory)
  {
    hide ZeroFrom, Write32, Take;
    var need := size + HEADER;
    FirstFitIsLowest(h.free, need, hb);
    assert Need(size) == need;
  }

  lemma {:induction false} FirstFitIsLowest(fl: FreeList, need: int, lo: int)
    requires Canonical(fl, lo)
    ensures forall k | 0 <= k < |fl| && fl[k].size >= need ::
      FirstFit(fl, need) <= k && fl[FirstFit(fl, need)].addr <= fl[k].addr
    ensures FirstFit(fl, need) < |fl| ==>
      fl[FirstFit(fl, need)].addr + need <= MAX_ADDR && lo <= fl[FirstFit(fl, need)].addr
  {
  }

  /** Sizes whose 32-bit sum with the header wraps are never granted. */
  lemma {:induction false} WrappingSizeFails(h: HeapState, size: int, sp: int)
    requires IsWord(size) && (size == 0 || size + HEADER >= W32)
    ensures Allocate(h, size, sp).Err?
  {
  }

  /** A size whose sum with the header wraps asks for at most three bytes: it is out of memory when no free block has
      them below SP, and else runs into the region check while zeroing. */
  lemma {:induction false} WrappingExact(h: HeapState, size: int, sp: int, hb: int)
    requires Canonical(h.free, hb) && 0 <= hb && IsWord(size) && size + HEADER >= W32
    ensures Allocate(h, size, sp) == Err(OutOfMemory) <==>
      !exists i | 0 <= i < |h.free| ::
        h.free[i].size >= size + HEADER - W32 && h.free[i].addr + size + HEADER - W32 < sp
    ensures Allocate(h, size, sp) == Err(OutOfMemory) || Allocate(h, size, sp) == Err(Internal)
  {
    var need := size + HEADER - W32;
    FirstFitIsLowest(h.free, need, hb);
    assert Need(size) == need;
  }

  lemma {:induction false} ZeroFromEffect(m: Mem, a: int, n: nat)
    ensures forall x :: Get(ZeroFrom(m, a, n), x) == if a <= x < a + n then 0 else Get(m, x)
    decreases n
  {
    if n > 0 {
      ZeroFromEffect(m, a, n - 1);
      forall x
        ensures Get(ZeroFrom(m, a, n), x) == if a <= x < a + n then 0 else Get(m, x)
      {
        assert Get(ZeroFrom(m, a, n - 1), x) == if a <= x < a + n - 1 then 0 else Get(m, x);
      }
    }
  }

  /** A granted request: a new live block of the asked size, zeroed, below SP, disjoint from all others; no
      byte outside it changes. What memory holds does not matter. */
  lemma {:induction false} AllocateSplits(h: HeapState, live: Blocks, hb: int, size: int, sp: int)
    requires Partition(h.free, h.hp, live, hb) && 0 < size && IsWord(size) && Allocate(h, size, sp).Ok?
    ensures var (h', p) := Allocate(h, size, sp).value;
      var a := p - HEADER;
      && a !in live && Partition(h'.free, h'.hp, live[a := size + HEADER], hb)
      && a + size + HEADER < sp && h'.hp == Max(h.hp, a + size + HEADER)
      && Read32(h'.mem, a) == size + HEADER
      && (forall x | p <= x < p + size :: Get(h'.mem, x) == 0)
      && (forall x | x < a || p + size <= x :: Get(h'.mem, x) == Get(h.mem, x))
      && !Live(live, a)
    ensures var a := Allocate(h, size, sp).value.1 - HEADER;
      forall b | b in live :: b + live[b] <= a || a + size + HEADER <= b
  {
    hide Canonical, Offers, SumFree, SumLive, Read32, Write32, ZeroFrom, Take, Get, Live;
    var need := size + HEADER;
    var i := FirstFit(h.free, need);
    var (h', p) := Allocate(h, size, sp).value;
    var a := h.free[i].addr;
    BlockBounds(h.free, i, hb);
    TakeEffect(h.free, i, need, hb);
    SumTake(h.free, i, need);
    AllocateMemory(h.mem, a, size);
    NotLive(h, live, hb, i);
    AddBlock(h, live, hb, i, need);
    SumLiveWith(live, a, need);
    forall x | hb <= x < MAX_ADDR
      ensures Offers(h'.free, x) <==> !Live(live[a := need], x)
    {
      LiveWith(live, a, need, x);
    }
  }

  /** Allocating keeps a heap sound. */
  lemma {:induction false} AllocateKeeps(h: HeapState, live: Blocks, hb: int, size: int, sp: int)
    requires HeapOk(h, live, hb) && 0 < size && IsWord(size) && Allocate(h, size, sp).Ok?
    ensures var (h', p) := Allocate(h, size, sp).value;
      var a := p - HEADER;
      && a !in live && HeapOk(h', live[a := size + HEADER], hb)
      && a + size + HEADER < sp && h'.hp == Max(h.hp, a + size + HEADER)
      && (forall x | p <= x < p + size :: Get(h'.mem, x) == 0)
      && (forall x | x < a || p + size <= x :: Get(h'.mem, x) == Get(h.mem, x))
      && !Live(live, a)
  {
    hide Canonical, Offers, SumFree, SumLive, Read32, Allocate, Get, Live;
    AllocateSplits(h, live, hb, size, sp);
    var (h', p) := Allocate(h, size, sp).value;
    var a := p - HEADER;
    forall b | b in live
      ensures Read32(h'.mem, b) == live[b]
    {
      HeaderKept(h.mem, h'.mem, a, size + HEADER, b);
    }
  }

  lemma {:induction false} BlockBounds(fl: FreeList, i: nat, lo: int)
    requires Canonical(fl, lo) && i < |fl|
    ensures fl[i].size > 0 && lo <= fl[i].addr && fl[i].addr + fl[i].size <= MAX_ADDR
    ensures forall x | Within(fl[i], x) :: Offers(fl, x)
  {
  }

  /** The header and the zeroed payload. */
  lemma {:induction false} AllocateMemory(m: Mem, a: int, size: nat)
    requires IsWord(size + HEADER)
    ensures var m' := ZeroFrom(Write32(m, a, size + HEADER), a + HEADER, size);
      && Read32(m', a) == size + HEADER
      && (forall x | a + HEADER <= x < a + HEADER + size :: Get(m', x) == 0)
      && (forall x | x < a || a + HEADER + size <= x :: Get(m', x) == Get(m, x))
  {
    hide Get, Read32, Write32, ZeroFrom;
    var m1 := Write32(m, a, size + HEADER);
    Read32Write32(m, a, size + HEADER);
    ZeroFromEffect(m1, a + HEADER, size);
    SameWord(m1, ZeroFrom(m1, a + HEADER, size), a);
    forall x | x < a || a + HEADER + size <= x
      ensures Get(m1, x) == Get(m, x)
    {
      Write32Elsewhere(m, a, size + HEADER, x);
    }
  }

  lemma {:induction false} SameWord(m: Mem, m': Mem, a: int)
    requires Get(m', a) == Get(m, a) && Get(m', a + 1) == Get(m, a + 1) && Get(m', a + 2) == Get(m, a + 2)
    requires Get(m', a + 3) == Get(m, a + 3)
    ensures Read32(m', a) == Read32(m, a)
  {
  }

  /** No live block meets a free one. */
  lemma {:induction false} NotLive(h: HeapState, live: Blocks, hb: int, i: nat)
    requires Partition(h.free, h.hp, live, hb) && i < |h.free|
    ensures forall x | Within(h.free[i], x) :: !Live(live, x)
  {
    BlockBounds(h.free, i, hb);
  }

  /** The taken block next to the live ones. */
  lemma {:induction false} AddBlock(h: HeapState, live: Blocks, hb: int, i: nat, need: int)
    requires Partition(h.free, h.hp, live, hb) && i < |h.free| && HEADER < need <= h.free[i].size
    ensures h.free[i].addr !in live && Disjoint(live[h.free[i].addr := need])
    ensures forall b | b in live :: b + live[b] <= h.free[i].addr || h.free[i].addr + need <= b
  {
    hide Canonical, Offers, SumFree, SumLive, Read32;
    var f := h.free[i];
    BlockBounds(h.free, i, hb);
    NotLive(h, live, hb, i);
    forall b | b in live
      ensures b + live[b] <= f.addr || f.addr + need <= b
    {
      var x := Max(b, f.addr);
      assert Within(f, x) ==> !Live(live, x);
      assert b <= x < b + live[b] ==> Live(live, x);
    }
  }

  lemma {:induction false} LiveWith(live: Blocks, a: int, n: int, x: int)
    requires a !in live
    ensures Live(live[a := n], x) <==> Live(live, x) || a <= x < a + n
  {
    var more := live[a := n];
    if Live(live, x) {
      var b :| b in live && b <= x < b + live[b];
      assert b in more;
    }
    if a <= x < a + n {
      assert a in more;
    }
  }

  lemma {:induction false} HeaderKept(m: Mem, m': Mem, a: int, n: int, b: int)
    requires (forall x | x < a || a + n <= x :: Get(m', x) == Get(m, x)) && (b + HEADER <= a || a + n <= b)
    ensures Read32(m', b) == Read32(m, b)
  {
    SameWord(m, m', b);
  }

  // ---------------------------------------------------------------- release

  /** Releasing a live block returns exactly its bytes to the free list. */
  lemma {:induction false} DeallocateKeeps(h: HeapState, live: Blocks, hb: int, p: int)
    requires HeapOk(h, live, hb) && p - HEADER in live
    ensures HeapOk(Deallocate(h, p), live - {p - HEADER}, hb)
    ensures Deallocate(h, p).mem == h.mem && Deallocate(h, p).hp == h.hp
  {
    hide Canonical, Offers, SumFree, SumLive, Read32, Release;
    var a := p - HEADER;
    var b := FreeBlock(live[a], a);
    LiveBlockReleasable(h, live, hb, a);
    ReleaseEffect(h.free, b, hb);
    SumRelease(h.free, b);
    SumLiveWithout(live, a);
    forall x | hb <= x < MAX_ADDR
      ensures Offers(Release(h.free, b), x) <==> !Live(live - {a}, x)
    {
      LiveWithout(live, a, x);
    }
  }

  lemma {:induction false} LiveBlockReleasable(h: HeapState, live: Blocks, hb: int, a: int)
    requires HeapOk(h, live, hb) && a in live
    ensures Releasable(h.free, FreeBlock(live[a], a), hb)
  {
    hide Canonical, Offers, SumFree, SumLive, Read32;
    forall x | Within(FreeBlock(live[a], a), x)
      ensures !Offers(h.free, x)
    {
      assert Live(live, x);
    }
  }

  lemma {:induction false} LiveWithout(live: Blocks, a: int, x: int)
    requires Disjoint(live) && a in live && live[a] > 0
    ensures Live(live - {a}, x) <==> Live(live, x) && !(a <= x < a + live[a])
  {
    var less := live - {a};
    if Live(live, x) && !(a <= x < a + live[a]) {
      var b :| b in live && b <= x < b + live[b];
      assert b in less;
    }
    if Live(less, x) {
      var b :| b in less && b <= x < b + less[b];
      assert b in live;
    }
  }

  /** Releasing the block just allocated restores the free list exactly. */
  lemma {:induction false} ReleaseUndoesAllocate(h: HeapState, live: Blocks, hb: int, size: int, sp: int)
    requires HeapOk(h, live, hb) && 0 < size && IsWord(size) && Allocate(h, size, sp).Ok?
    ensures var (h', p) := Allocate(h, size, sp).value; Deallocate(h', p).free == h.free
  {
    hide Canonical, Offers, SumFree, SumLive, Read32, Release, Live, ZeroFrom, Write32, Take;
    var (h', p) := Allocate(h, size, sp).value;
    var a := p - HEADER;
    AllocateKeeps(h, live, hb, size, sp);
    DeallocateKeeps(h', live[a := size + HEADER], hb, p);
    var h2 := Deallocate(h', p);
    assert live[a := size + HEADER] - {a} == live;
    forall x
      ensures Offers(h2.free, x) <==> Offers(h.free, x)
    {
      OffersInside(h.free, hb, x);
      OffersInside(h2.free, hb, x);
    }
    CanonicalUnique(h2.free, h.free, hb);
  }

  lemma {:induction false} OffersInside(fl: FreeList, lo: int, x: int)
    requires Canonical(fl, lo)
    ensures Offers(fl, x) ==> lo <= x < MAX_ADDR
  {
  }
}
