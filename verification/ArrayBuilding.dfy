/** What building an array does to the heap, for lengths of any size. */
module ArrayBuilding {
  import opened Words
  import opened Isa
  import opened Source
  import opened FlatMemory
  import opened Heap
  import opened HeapLaws
  import opened HeapRuns
  import opened ArrayTrees

  // ---------------------------------------------------------------- stores

  /** Live bytes outside [lo, hi) and all bytes from `top` on are the same. */
  ghost predicate SameBut(m: Mem, m': Mem, live: Blocks, lo: int, hi: int, top: int) {
    forall x | (Live(live, x) && !(lo <= x < hi)) || top <= x :: Get(m', x) == Get(m, x)
  }

  lemma {:induction false} LiveByte(live: Blocks, b: int, x: int)
    requires b in live && b <= x < b + live[b]
    ensures Live(live, x)
  {
  }

  /** A word stored below `top`. */
  lemma {:induction false} WordStored(m: Mem, live: Blocks, a: int, v: int, top: int)
    requires IsWord(v) && a + 4 <= top
    ensures var m' := Write32(m, a, v);
      Read32(m', a) == v && SameBut(m, m', live, a, a + 4, top)
        && forall x | !(a <= x < a + 4) :: Get(m', x) == Get(m, x)
  {
    hide Read32, Get, Live, Write32;
    Read32Write32(m, a, v);
    forall x | !(a <= x < a + 4)
      ensures Get(Write32(m, a, v), x) == Get(m, x)
    {
      Write32Elsewhere(m, a, v, x);
    }
  }

  /** Trees other than the stored-into block do not notice. */
  lemma {:induction false} OtherBlocks(m: Mem, m': Mem, live: Blocks, b: int, lo: int, hi: int, top: int, hs: set<int>)
    requires SameBut(m, m', live, lo, hi, top) && Disjoint(live) && b in live && b <= lo && hi <= b + live[b]
    requires b !in hs && hs <= live.Keys
    ensures SameIn(m, m', live, hs)
  {
    forall x | InBlocks(live, hs, x)
      ensures Get(m', x) == Get(m, x)
    {
      var c :| c in hs && c in live && c <= x < c + live[c];
      LiveByte(live, c, x);
    }
  }

  lemma {:induction false} SameButTrans(m0: Mem, m1: Mem, m2: Mem, live: Blocks, live1: Blocks, lo: int, hi: int,
                                        lo1: int, hi1: int, lo2: int, hi2: int, top: int)
    requires SameBut(m0, m1, live, lo1, hi1, top) && SameBut(m1, m2, live1, lo2, hi2, top) && Grows(live, live1)
    requires lo1 < hi1 ==> lo <= lo1 && hi1 <= hi
    requires lo2 < hi2 ==> lo <= lo2 && hi2 <= hi
    ensures SameBut(m0, m2, live, lo, hi, top)
  {
    forall x | (Live(live, x) && !(lo <= x < hi)) || top <= x
      ensures Get(m2, x) == Get(m0, x)
    {
      if Live(live, x) {
        var b :| b in live && b <= x < b + live[b];
        LiveByte(live1, b, x);
      }
    }
  }

  lemma {:induction false} NothingChanged(m: Mem, live: Blocks, lo: int, hi: int, top: int)
    ensures SameBut(m, m, live, lo, hi, top)
  {
  }

  // ---------------------------------------------------------------- one block

  lemma {:induction false} ZeroWord(m: Mem, a: int)
    requires forall x | a <= x < a + 4 :: Get(m, x) == 0
    ensures Read32(m, a) == 0
  {
  }

  /** A block added to the live ones meets none of them and lies in the heap. */
  lemma {:induction false} OldBlocksApart(h1: HeapState, live: Blocks, live1: Blocks, hb: int, a: int)
    requires Partition(h1.free, h1.hp, live1, hb) && a !in live && a in live1 && live1 == live[a := live1[a]]
    ensures forall x | Live(live, x) :: x < a || a + live1[a] <= x
    ensures 0 <= hb <= a && a + live1[a] <= h1.hp
  {
    hide Canonical, Offers, SumFree, SumLive;
    forall x | Live(live, x)
      ensures x < a || a + live1[a] <= x
    {
      var b :| b in live && b <= x < b + live[b];
      assert b in live1;
    }
  }

  /** The array's own block, seen from its pointer. */
  lemma {:induction false} ArrayBlock(h: HeapState, live: Blocks, hb: int, p: int)
    requires Partition(h.free, h.hp, live, hb) && p - HEADER in live
    ensures Disjoint(live) && 0 <= hb <= p - HEADER && p - HEADER + live[p - HEADER] <= h.hp <= MAX_ADDR
  {
    hide Canonical, Offers, SumFree, SumLive, Live;
  }

  /** A new block holds its size and the length in front of zeroes. */
  ghost predicate FreshBlock(m: Mem, p: int, length: int) {
    && Read32(m, p - HEADER) == BlockSize(length, Asked) && Read32(m, p) == length
    && ZeroElements(m, p, length, p - HEADER + BlockSize(length, Asked))
  }

  /** What one allocation with its length word leaves behind. */
  lemma {:induction false} BlockBuilt(h: HeapState, live: Blocks, hb: int, length: int, sp: int) returns (live': Blocks)
    requires Partition(h.free, h.hp, live, hb) && h.hp < sp <= W32 && IsWord(length)
    requires Allocate(h, ArrayBytes(length), sp).Ok?
    ensures var (h1, p) := Allocate(h, ArrayBytes(length), sp).value;
      var h2 := h1.(mem := Write32(h1.mem, p, length));
      && p - HEADER !in live && live' == live[p - HEADER := BlockSize(length, Asked)]
      && Partition(h2.free, h2.hp, live', hb) && h.hp <= h2.hp < sp && IsWord(p)
      && SameBut(h.mem, h2.mem, live, 0, 0, sp) && FreshBlock(h2.mem, p, length)
    ensures BlockSize(length, Asked) >= HEADER + 4
  {
    hide Canonical, Offers, SumFree, SumLive, Read32, Get, Write32, Allocate, Partition, Live, ArrayBytes;
    GrantedExact(h, length, sp);
    var size := ArrayBytes(length);
    AllocateSplits(h, live, hb, size, sp);
    var (h1, p) := Allocate(h, size, sp).value;
    live' := live[p - HEADER := size + HEADER];
    OldBlocksApart(h1, live, live', hb, p - HEADER);
    WordStored(h1.mem, live', p, length, sp);
    var m2 := Write32(h1.mem, p, length);
    SameWord(h1.mem, m2, p - HEADER);
    forall i | 0 <= i < length && ElementAddress(p, i) + 4 <= p + size
      ensures Read32(m2, ElementAddress(p, i)) == 0
    {
      ZeroWord(m2, ElementAddress(p, i));
    }
    forall x | (Live(live, x) && !(0 <= x < 0)) || sp <= x
      ensures Get(m2, x) == Get(h.mem, x)
    {
    }
  }

  // ---------------------------------------------------------------- conservation

  lemma {:induction false} SumFreeBounds(fl: FreeList, lo: int)
    requires Canonical(fl, lo)
    ensures 0 <= SumFree(fl)
    ensures fl != [] ==> SumFree(fl) <= MAX_ADDR - fl[0].addr
    ensures 0 <= lo ==> SumFree(fl) <= MAX_ADDR
    decreases |fl|
  {
    if fl != [] {
      SumFreeBounds(fl[1..], lo);
    }
  }

  /** A granted array takes at least eight bytes out of the free list. */
  lemma {:induction false} AllocateTakes(h: HeapState, length: int, sp: int, hb: int)
    requires Canonical(h.free, hb) && IsWord(length) && Allocate(h, ArrayBytes(length), sp).Ok?
    ensures var h1 := Allocate(h, ArrayBytes(length), sp).value.0;
      Canonical(h1.free, hb) && SumFree(h1.free) <= SumFree(h.free) - 8
  {
    hide Canonical, SumFree, Take, ZeroFrom, Write32, ArrayBytes;
    GrantedExact(h, length, sp);
    var need := ArrayBytes(length) + HEADER;
    var i := FirstFit(h.free, need);
    TakeEffect(h.free, i, need, hb);
    SumTake(h.free, i, need);
  }

  /** Every array of the tree takes its bytes from the free list: eight for each row, whatever memory holds. */
  lemma {:induction false} BuildTakes(h: HeapState, dims: seq<int>, sp: int, hb: int)
    requires dims != [] && WordLengths(dims) && Canonical(h.free, hb) && Build(h, dims, sp).Ok?
    ensures var h' := Build(h, dims, sp).value.0; Canonical(h'.free, hb) && SumFree(h'.free) <= SumFree(h.free) - 8
    ensures |dims| > 1 ==> 8 * dims[0] <= SumFree(h.free)
    decreases |dims|, 0
  {
    hide Canonical, SumFree, Allocate, Write32, ArrayBytes;
    AllocateTakes(h, dims[0], sp, hb);
    if |dims| > 1 {
      var (h1, p) := Allocate(h, ArrayBytes(dims[0]), sp).value;
      RowsTake(h1.(mem := Write32(h1.mem, p, dims[0])), p, 0, dims, sp, hb);
      SumFreeBounds(Build(h, dims, sp).value.0.free, hb);
    }
  }

  lemma {:induction false} RowsTake(h: HeapState, p: int, i: int, dims: seq<int>, sp: int, hb: int)
    requires |dims| > 1 && WordLengths(dims) && 0 <= i <= dims[0] && Canonical(h.free, hb)
    requires BuildRows(h, p, i, dims, sp).Ok?
    ensures var h' := BuildRows(h, p, i, dims, sp).value.0;
      Canonical(h'.free, hb) && SumFree(h'.free) <= SumFree(h.free) - 8 * (dims[0] - i)
    decreases |dims| - 1, 1, dims[0] - i
  {
    hide Canonical, SumFree, Build, Write32;
    if i < dims[0] {
      BuildTakes(h, dims[1..], sp, hb);
      var (h1, a) := Build(h, dims[1..], sp).value;
      RowsTake(h1.(mem := Write32(h1.mem, ElementAddress(p, i), a.p)), p, i + 1, dims, sp, hb);
    }
  }

  /** So 2^30 rows are never built, and an array of arrays that is built has room for its row pointers. */
  lemma {:induction false} BuiltOuterFits(h: HeapState, dims: seq<int>, sp: int, hb: int)
    requires |dims| > 1 && WordLengths(dims) && Canonical(h.free, hb) && 0 <= hb && Build(h, dims, sp).Ok?
    ensures dims[0] < WRAP - 2 && ArrayBytes(dims[0]) == 4 + ELEMENT * dims[0]
  {
    hide SumFree, Allocate, BuildRows, ArrayBytes;
    BuildTakes(h, dims, sp, hb);
    SumFreeBounds(h.free, hb);
    GrantedExact(h, dims[0], sp);
  }

  // ---------------------------------------------------------------- what building keeps

  /** Building keeps the heap partitioned, adds exactly the blocks of the tree, changes no live byte, and
      leaves the tree in memory. */
  lemma {:induction false} BuildSplits(h: HeapState, live: Blocks, hb: int, dims: seq<int>, sp: int)
    returns (live': Blocks)
    requires dims != [] && WordLengths(dims) && Partition(h.free, h.hp, live, hb) && h.hp < sp <= W32
    requires Build(h, dims, sp).Ok?
    ensures var (h', a) := Build(h, dims, sp).value;
      && Partition(h'.free, h'.hp, live', hb) && h.hp <= h'.hp < sp && IsWord(a.p)
      && Grows(live, live') && live'.Keys == live.Keys + Headers(a) && Headers(a) !! live.Keys
      && SameBut(h.mem, h'.mem, live, 0, 0, sp) && Tree(h'.mem, live', a, dims, Asked)
    decreases |dims|, 0
  {
    hide Partition, Allocate, SameBut, Read32, Rows, ArrayBytes, ZeroElements;
    live' := BlockBuilt(h, live, hb, dims[0], sp);
    var (h1, p) := Allocate(h, ArrayBytes(dims[0]), sp).value;
    var h2 := h1.(mem := Write32(h1.mem, p, dims[0]));
    if |dims| > 1 {
      PartitionCanonical(h.free, h.hp, live, hb);
      BuiltOuterFits(h, dims, sp, hb);
      var live1 := live';
      live' := RowsSplit(h2, live1, hb, p, 0, dims, sp);
      var (h3, rows) := BuildRows(h2, p, 0, dims, sp).value;
      FrontKept(h2.mem, h3.mem, live1, p, ElementAddress(p, 0), ElementAddress(p, dims[0]), sp);
      RowsOutside(h2, h3.mem, live, live1, hb, p, dims[0], sp);
      SameButTrans(h.mem, h2.mem, h3.mem, live, live, 0, 0, 0, 0, 0, 0, sp);
    }
  }

  lemma {:induction false} PartitionCanonical(free: FreeList, hp: int, live: Blocks, hb: int)
    requires Partition(free, hp, live, hb)
    ensures Canonical(free, hb) && 0 <= hb
  {
  }

  /** Changes beside the header and the length leave both. */
  lemma {:induction false} FrontKept(m: Mem, m': Mem, live: Blocks, p: int, lo: int, hi: int, top: int)
    requires SameBut(m, m', live, lo, hi, top) && p - HEADER in live && live[p - HEADER] >= HEADER + 4
    requires hi <= p - HEADER || p + 4 <= lo
    ensures Read32(m', p) == Read32(m, p) && Read32(m', p - HEADER) == Read32(m, p - HEADER)
  {
    forall x | p - HEADER <= x < p + 4
      ensures Get(m', x) == Get(m, x)
    {
      LiveByte(live, p - HEADER, x);
    }
    SameWord(m, m', p);
    SameWord(m, m', p - HEADER);
  }

  /** Filling the elements of a new block changes no byte that was live before. */
  lemma {:induction false} RowsOutside(h: HeapState, m': Mem, live: Blocks, live1: Blocks, hb: int, p: int,
          length: int, top: int)
    requires Partition(h.free, h.hp, live1, hb) && p - HEADER !in live && p - HEADER in live1
    requires live1 == live[p - HEADER := live1[p - HEADER]]
    requires ElementAddress(p, length) <= p - HEADER + live1[p - HEADER]
    requires SameBut(h.mem, m', live1, ElementAddress(p, 0), ElementAddress(p, length), top)
    ensures SameBut(h.mem, m', live, 0, 0, top)
  {
    hide Canonical, Offers, SumFree, SumLive, Get;
    OldBlocksApart(h, live, live1, hb, p - HEADER);
    forall x | Live(live, x) || top <= x
      ensures Get(m', x) == Get(h.mem, x)
    {
      if Live(live, x) {
        var b :| b in live && b <= x < b + live[b];
        LiveByte(live1, b, x);
      }
    }
  }

  lemma {:induction false} RowsSplit(h: HeapState, live: Blocks, hb: int, p: int, i: int, dims: seq<int>, sp: int)
    returns (live': Blocks)
    requires |dims| > 1 && WordLengths(dims) && Partition(h.free, h.hp, live, hb) && h.hp < sp <= W32
    requires 0 <= i <= dims[0] && BuildRows(h, p, i, dims, sp).Ok?
    requires p - HEADER in live && ElementAddress(p, dims[0]) <= p - HEADER + live[p - HEADER]
    ensures var (h', rows) := BuildRows(h, p, i, dims, sp).value;
      && Partition(h'.free, h'.hp, live', hb) && h.hp <= h'.hp < sp
      && Grows(live, live') && live'.Keys == live.Keys + RowHeaders(rows) && RowHeaders(rows) !! live.Keys
      && SameBut(h.mem, h'.mem, live, ElementAddress(p, i), ElementAddress(p, dims[0]), sp)
      && Rows(h'.mem, live', p, i, rows, dims, Asked)
    decreases |dims| - 1, 1, dims[0] - i
  {
    hide Partition, Allocate, SameBut, Read32, Tree, Build, Write32;
    live' := live;
    var end := ElementAddress(p, dims[0]);
    if i < dims[0] {
      var live1 := BuildSplits(h, live, hb, dims[1..], sp);
      var (h1, a) := Build(h, dims[1..], sp).value;
      var c := ElementAddress(p, i);
      ArrayBlock(h1, live1, hb, p);
      WordStored(h1.mem, live1, c, a.p, sp);
      var h2 := h1.(mem := Write32(h1.mem, c, a.p));
      OtherBlocks(h1.mem, h2.mem, live1, p - HEADER, c, c + 4, sp, Headers(a));
      TreeKept(h1.mem, h2.mem, live1, live1, a, dims[1..], Asked);
      live' := RowsSplit(h2, live1, hb, p, i + 1, dims, sp);
      var (h3, rows) := BuildRows(h2, p, i + 1, dims, sp).value;
      OtherBlocks(h2.mem, h3.mem, live1, p - HEADER, ElementAddress(p, i + 1), end, sp, Headers(a));
      TreeKept(h2.mem, h3.mem, live1, live', a, dims[1..], Asked);
      ElementKept(h2.mem, h3.mem, live1, p, i, dims[0], sp);
      SameButTrans(h.mem, h1.mem, h2.mem, live, live1, c, end, 0, 0, c, c + 4, sp);
      SameButTrans(h.mem, h2.mem, h3.mem, live, live1, c, end, c, end, c + 4, end, sp);
      assert ([a] + rows)[1..] == rows;
    } else {
      NothingChanged(h.mem, live, ElementAddress(p, i), end, sp);
    }
  }

  lemma {:induction false} ElementKept(m: Mem, m': Mem, live: Blocks, p: int, i: int, length: int, top: int)
    requires SameBut(m, m', live, ElementAddress(p, i + 1), ElementAddress(p, length), top) && 0 <= i < length
    requires p - HEADER in live && ElementAddress(p, length) <= p - HEADER + live[p - HEADER]
    ensures Read32(m', ElementAddress(p, i)) == Read32(m, ElementAddress(p, i))
  {
    var c := ElementAddress(p, i);
    forall x | c <= x < c + 4
      ensures Get(m', x) == Get(m, x)
    {
      LiveByte(live, p - HEADER, x);
    }
    SameWord(m, m', c);
  }

  // ---------------------------------------------------------------- sound heaps

  /** The headers of a tree hold the sizes of its blocks. */
  lemma {:induction false} TreeHeaders(m: Mem, live: Blocks, a: Arr, dims: seq<int>)
    requires dims != [] && Tree(m, live, a, dims, Asked)
    ensures forall b | b in Headers(a) :: b in live && Read32(m, b) == live[b]
    decreases |dims|, 0
  {
    hide Read32, ArrayBytes;
    if |dims| > 1 {
      RowsHeaders(m, live, a.p, 0, a.rows, dims);
    }
  }

  lemma {:induction false} RowsHeaders(m: Mem, live: Blocks, p: int, i: int, rows: seq<Arr>, dims: seq<int>)
    requires |dims| > 1 && Rows(m, live, p, i, rows, dims, Asked)
    ensures forall b | b in RowHeaders(rows) :: b in live && Read32(m, b) == live[b]
    decreases |dims| - 1, 1, |rows|
  {
    hide Read32, Tree;
    if rows != [] {
      TreeHeaders(m, live, rows[0], dims[1..]);
      RowsHeaders(m, live, p, i + 1, rows[1..], dims);
    }
  }

  lemma {:induction false} HeaderSame(m: Mem, m': Mem, live: Blocks, b: int, top: int)
    requires SameBut(m, m', live, 0, 0, top) && b in live && live[b] > HEADER
    ensures Read32(m', b) == Read32(m, b)
  {
    forall x | b <= x < b + 4
      ensures Get(m', x) == Get(m, x)
    {
      LiveByte(live, b, x);
    }
    SameWord(m, m', b);
  }

  /** On a sound heap `new` keeps the heap sound, adds exactly the blocks of the tree, and changes no live
      byte: for lengths of any size. */
  lemma {:induction false} BuildKeeps(h: HeapState, live: Blocks, hb: int, dims: seq<int>, sp: int)
    returns (live': Blocks)
    requires dims != [] && WordLengths(dims) && HeapOk(h, live, hb) && h.hp < sp <= W32 && Build(h, dims, sp).Ok?
    ensures var (h', a) := Build(h, dims, sp).value;
      && HeapOk(h', live', hb) && h.hp <= h'.hp < sp && IsWord(a.p)
      && Grows(live, live') && live'.Keys == live.Keys + Headers(a) && Headers(a) !! live.Keys
      && SameBut(h.mem, h'.mem, live, 0, 0, sp) && Tree(h'.mem, live', a, dims, Asked)
  {
    hide Canonical, Offers, SumFree, SumLive, Live, Disjoint, SameBut, Tree, Headers, Build, Read32;
    live' := BuildSplits(h, live, hb, dims, sp);
    var (h', a) := Build(h, dims, sp).value;
    TreeHeaders(h'.mem, live', a, dims);
    forall b | b in live'
      ensures Read32(h'.mem, b) == live'[b]
    {
      if b in live {
        HeaderSame(h.mem, h'.mem, live, b, sp);
      }
    }
  }

  // ---------------------------------------------------------------- when the tree is rectangular

  /** A tree whose blocks have room for all elements is built exactly when every length that is reached is
      below 2^30 - 2. */
  lemma {:induction false} RectangularExact(h: HeapState, live: Blocks, hb: int, dims: seq<int>, sp: int)
    requires dims != [] && WordLengths(dims) && HeapOk(h, live, hb) && h.hp < sp <= W32 && Build(h, dims, sp).Ok?
    ensures var (h', a) := Build(h, dims, sp).value;
      LengthsFit(dims) <==> exists live' :: HeapOk(h', live', hb) && Tree(h'.mem, live', a, dims, Full)
  {
    hide Read32, Build, Canonical, Offers, SumFree, SumLive, Live, Disjoint, Tree, SameBut, LengthsFit;
    var (h', a) := Build(h, dims, sp).value;
    if LengthsFit(dims) {
      var live' := BuildKeeps(h, live, hb, dims, sp);
      FittingTreeIsFull(h'.mem, live', a, dims);
    }
    if live' :| HeapOk(h', live', hb) && Tree(h'.mem, live', a, dims, Full) {
      FullTreeFits(h', live', hb, h'.mem, a, dims);
    }
  }

  /** `new T[length]` from 2^30 on: the block has the size for the length modulo 2^30, the length word holds
      the whole length, and the elements outside the block are exactly those from length % 2^30 on. */
  lemma {:induction false} ShortBlock(h: HeapState, live: Blocks, hb: int, length: int, sp: int) returns (live': Blocks)
    requires WRAP <= length < W32 && HeapOk(h, live, hb) && h.hp < sp <= W32
    ensures Build(h, [length], sp).Ok? <==>
      length % WRAP < WRAP - 2 && Allocate(h, 4 + ELEMENT * (length % WRAP), sp).Ok?
    ensures Build(h, [length], sp).Ok? ==>
      var (h', a) := Build(h, [length], sp).value;
      && HeapOk(h', live', hb) && Tree(h'.mem, live', a, [length], Asked) && Read32(h'.mem, a.p) == length
      && live'[a.p - HEADER] == HEADER + 4 + ELEMENT * (length % WRAP)
      && forall i | 0 <= i < length ::
        ElementAddress(a.p, i) + 4 <= a.p - HEADER + live'[a.p - HEADER] <==> i < length % WRAP
  {
    hide Read32, Canonical, Offers, SumFree, SumLive, Live, Disjoint, SameBut, Allocate, ArrayBytes;
    live' := live;
    RequestExact(length);
    if Build(h, [length], sp).Ok? {
      GrantedExact(h, length, sp);
      live' := BuildKeeps(h, live, hb, [length], sp);
    }
  }

  /** The smallest such length: `new int[1073741824]` is granted whenever four bytes are, is never a full
      array, and already its element 0 lies behind the block, although index 0 is below the length. */
  lemma {:induction false} ShortBlockExample(h: HeapState, live: Blocks, hb: int, sp: int) returns (live': Blocks)
    requires HeapOk(h, live, hb) && h.hp < sp <= W32
    ensures Build(h, [WRAP], sp).Ok? <==> Allocate(h, 4, sp).Ok?
    ensures Build(h, [WRAP], sp).Ok? ==>
      var (h', a) := Build(h, [WRAP], sp).value;
      && HeapOk(h', live', hb) && a.p - HEADER in live' && Read32(h'.mem, a.p) == WRAP
      && a.p - HEADER + live'[a.p - HEADER] <= ElementAddress(a.p, 0)
      && !exists full :: HeapOk(h', full, hb) && Tree(h'.mem, full, a, [WRAP], Full)
  {
    hide Read32, HeapOk, Build, Allocate, ArrayBytes;
    live' := ShortBlock(h, live, hb, WRAP, sp);
    if Build(h, [WRAP], sp).Ok? {
      var (h', a) := Build(h, [WRAP], sp).value;
      RectangularExact(h, live, hb, [WRAP], sp);
    }
  }

  /** 0x3FFF_FFFE and 0x3FFF_FFFF elements, and their repetitions modulo 2^30, are never granted. */
  lemma {:induction false} NeverGranted(h: HeapState, dims: seq<int>, sp: int)
    requires dims != [] && WordLengths(dims) && dims[0] % WRAP >= WRAP - 2
    ensures Build(h, dims, sp).Err?
  {
    hide Allocate, ArrayBytes;
    if Build(h, dims, sp).Ok? {
      GrantedExact(h, dims[0], sp);
    }
  }

  // ---------------------------------------------------------------- what memory has no part in

  /** The same outcome up to memory. */
  predicate SameOutcome<T(==)>(r: Outcome<(HeapState, T)>, r': Outcome<(HeapState, T)>) {
    match (r, r')
    case (Ok((h, a)), Ok((h', a'))) => h.free == h'.free && h.hp == h'.hp && a == a'
    case (Err(f), Err(f')) => f == f'
    case _ => false
  }

  /** Whether building succeeds, which blocks it takes and where they are depends on the free list alone. */
  lemma {:induction false} BuildIgnoresMemory(h: HeapState, h': HeapState, dims: seq<int>, sp: int)
    requires dims != [] && h'.free == h.free && h'.hp == h.hp
    ensures SameOutcome(Build(h, dims, sp), Build(h', dims, sp))
    decreases |dims|, 0
  {
    hide ArrayBytes, Write32;
    if |dims| > 1 && Allocate(h, ArrayBytes(dims[0]), sp).Ok? {
      var (h1, p) := Allocate(h, ArrayBytes(dims[0]), sp).value;
      var (h2, _) := Allocate(h', ArrayBytes(dims[0]), sp).value;
      RowsIgnoreMemory(h1.(mem := Write32(h1.mem, p, dims[0])), h2.(mem := Write32(h2.mem, p, dims[0])), p, 0, dims,
        sp);
    }
  }

  lemma {:induction false} RowsIgnoreMemory(h: HeapState, h': HeapState, p: int, i: int, dims: seq<int>, sp: int)
    requires |dims| > 1 && h'.free == h.free && h'.hp == h.hp
    ensures SameOutcome(BuildRows(h, p, i, dims, sp), BuildRows(h', p, i, dims, sp))
    decreases |dims| - 1, 1, dims[0] - i
  {
    hide Build, Write32;
    if i < dims[0] {
      BuildIgnoresMemory(h, h', dims[1..], sp);
      if Build(h, dims[1..], sp).Ok? {
        var (h1, a) := Build(h, dims[1..], sp).value;
        var (h2, _) := Build(h', dims[1..], sp).value;
        var c := ElementAddress(p, i);
        RowsIgnoreMemory(h1.(mem := Write32(h1.mem, c, a.p)), h2.(mem := Write32(h2.mem, c, a.p)), p, i + 1, dims, sp);
      }
    }
  }

  // ---------------------------------------------------------------- why building fails

  /** 2^30 rows are more than the heap can hold. */
  lemma {:induction false} WideNeverBuilt(h: HeapState, p: int, i: int, dims: seq<int>, sp: int, hb: int)
    requires |dims| > 1 && WordLengths(dims) && Canonical(h.free, hb) && dims[0] >= WRAP
    requires 0 <= i && 8 * i + SumFree(h.free) <= MAX_ADDR
    ensures i < dims[0] && BuildRows(h, p, i, dims, sp).Err?
  {
    hide SumFree, Canonical;
    SumFreeBounds(h.free, hb);
    if BuildRows(h, p, i, dims, sp).Ok? {
      RowsTake(h, p, i, dims, sp, hb);
      SumFreeBounds(BuildRows(h, p, i, dims, sp).value.0.free, hb);
    }
  }

  /** When every length that is reached fits, building fails for lack of memory only. */
  lemma {:induction false} BuildFault(h: HeapState, live: Blocks, hb: int, dims: seq<int>, sp: int)
    requires dims != [] && WordLengths(dims) && LengthsFit(dims) && Partition(h.free, h.hp, live, hb)
    requires h.hp < sp <= W32
    requires Build(h, dims, sp).Err?
    ensures Build(h, dims, sp).fault == OutOfMemory
    decreases |dims|, 0
  {
    hide Partition, Allocate, Write32, ArrayBytes;
    AllocateFault(h, live, hb, dims[0], sp);
    if Allocate(h, ArrayBytes(dims[0]), sp).Ok? {
      var (h1, p) := Allocate(h, ArrayBytes(dims[0]), sp).value;
      var live1 := BlockBuilt(h, live, hb, dims[0], sp);
      RequestExact(dims[0]);
      RowsFault(h1.(mem := Write32(h1.mem, p, dims[0])), live1, hb, p, 0, dims, sp);
    }
  }

  lemma {:induction false} AllocateFault(h: HeapState, live: Blocks, hb: int, length: int, sp: int)
    requires Partition(h.free, h.hp, live, hb) && 0 <= length < WRAP - 2
    ensures Allocate(h, ArrayBytes(length), sp).Ok? || Allocate(h, ArrayBytes(length), sp) == Outcome.Err(OutOfMemory)
  {
    hide Allocate;
    RequestExact(length);
    OutOfMemoryExact(h, 4 + ELEMENT * length, sp, hb);
  }

  lemma {:induction false} RowsFault(h: HeapState, live: Blocks, hb: int, p: int, i: int, dims: seq<int>, sp: int)
    requires |dims| > 1 && WordLengths(dims) && LengthsFit(dims) && Partition(h.free, h.hp, live, hb)
    requires h.hp < sp <= W32
    requires 0 <= i <= dims[0] && BuildRows(h, p, i, dims, sp).Err?
    ensures BuildRows(h, p, i, dims, sp).fault == OutOfMemory
    decreases |dims| - 1, 1, dims[0] - i
  {
    hide Partition, Build, Write32, Tree, SameBut;
    if i < dims[0] {
      if Build(h, dims[1..], sp).Err? {
        BuildFault(h, live, hb, dims[1..], sp);
      } else {
        var (h1, a) := Build(h, dims[1..], sp).value;
        var live1 := BuildSplits(h, live, hb, dims[1..], sp);
        RowsFault(h1.(mem := Write32(h1.mem, ElementAddress(p, i), a.p)), live1, hb, p, i + 1, dims, sp);
      }
    }
  }
}
