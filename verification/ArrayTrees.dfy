/** What `new T[d0]...[dn]` builds on the heap: a tree of disjoint live blocks, rectangular as long as
    the byte counts do not wrap. */
module ArrayTrees {
  import opened Words
  import opened Isa
  import opened Source
  import opened FlatMemory
  import opened Heap
  import opened HeapLaws
  import opened HeapRuns

  /** An array with the arrays its elements point to; the innermost arrays have no rows. */
  datatype Arr = Arr(p: int, rows: seq<Arr>)

  // ---------------------------------------------------------------- requests

  /** From this length on the number of bytes needed does not fit into 32 bits. */
  const WRAP := 0x4000_0000

  /** Bytes asked for, in 32-bit arithmetic. */
  function ArrayBytes(length: int): (b: int)
    ensures IsWord(b)
  {
    ToWord(ToWord(ELEMENT * length) + 4)
  }

  /** The request is that of the length modulo 2^30: it has room for the length word and the elements
      exactly when it does not wrap. */
  lemma {:induction false} RequestExact(length: int)
    requires IsWord(length)
    ensures ArrayBytes(length) == if length % WRAP == WRAP - 1 then 0 else 4 + ELEMENT * (length % WRAP)
    ensures ArrayBytes(length) >= 4 + ELEMENT * length <==> length < WRAP - 1
  {
    var k, m := length / WRAP, length % WRAP;
    assert ELEMENT * length == W32 * k + ELEMENT * m;
    assert ToWord(ELEMENT * length) == ELEMENT * m;
  }

  /** The two largest residues are never granted: one asks for nothing, the other leaves no room for the
      header. */
  lemma {:induction false} GrantedExact(h: HeapState, length: int, sp: int)
    requires IsWord(length) && Allocate(h, ArrayBytes(length), sp).Ok?
    ensures length % WRAP < WRAP - 2 && ArrayBytes(length) == 4 + ELEMENT * (length % WRAP)
    ensures 0 < ArrayBytes(length) && ArrayBytes(length) + HEADER < W32
  {
    hide ToWord, FirstFit, ZeroFrom, Write32, Take;
    RequestExact(length);
    if length % WRAP >= WRAP - 2 {
      WrappingSizeFails(h, ArrayBytes(length), sp);
    }
  }

  predicate WordLengths(dims: seq<int>) {
    forall i | 0 <= i < |dims| :: IsWord(dims[i])
  }

  /** Every length that is reached has a block with room for all its elements. */
  predicate LengthsFit(dims: seq<int>)
    requires dims != []
    decreases |dims|
  {
    0 <= dims[0] < WRAP - 2 && (|dims| > 1 && dims[0] > 0 ==> LengthsFit(dims[1..]))
  }

  /** No array of arrays that is reached has 2^30 or more rows. */
  predicate RowsFit(dims: seq<int>)
    requires dims != []
    decreases |dims|
  {
    |dims| > 1 ==> dims[0] < WRAP && (0 < dims[0] < WRAP - 2 ==> RowsFit(dims[1..]))
  }

  lemma {:induction false} FitImpliesRowsFit(dims: seq<int>)
    requires dims != [] && LengthsFit(dims)
    ensures RowsFit(dims)
    decreases |dims|
  {
    if |dims| > 1 && dims[0] > 0 {
      FitImpliesRowsFit(dims[1..]);
    }
  }

  // ---------------------------------------------------------------- building

  /** The emitted allocation: the block, its length word, then the rows in order. */
  function Build(h: HeapState, dims: seq<int>, sp: int): Outcome<(HeapState, Arr)>
    requires dims != []
    decreases |dims|, 0
  {
    match Allocate(h, ArrayBytes(dims[0]), sp)
    case Err(f) => Err(f)
    case Ok((h1, p)) =>
      var h2 := h1.(mem := Write32(h1.mem, p, dims[0]));
      if |dims| == 1 then Ok((h2, Arr(p, [])))
      else
        match BuildRows(h2, p, 0, dims, sp)
        case Err(f) => Err(f)
        case Ok((h3, rows)) => Ok((h3, Arr(p, rows)))
  }

  /** Rows i, i + 1, ... of the array at p. */
  function BuildRows(h: HeapState, p: int, i: int, dims: seq<int>, sp: int): (r: Outcome<(HeapState, seq<Arr>)>)
    requires |dims| > 1
    ensures r.Ok? && i <= dims[0] ==> |r.value.1| == dims[0] - i
    decreases |dims| - 1, 1, dims[0] - i
  {
    if i >= dims[0] then Ok((h, []))
    else
      match Build(h, dims[1..], sp)
      case Err(f) => Err(f)
      case Ok((h1, a)) =>
        match BuildRows(h1.(mem := Write32(h1.mem, ElementAddress(p, i), a.p)), p, i + 1, dims, sp)
        case Err(f) => Err(f)
        case Ok((h2, rows)) => Ok((h2, [a] + rows))
  }

  // ---------------------------------------------------------------- the tree in memory

  /** Addresses of the block headers of a tree. */
  function Headers(a: Arr): set<int>
    decreases a, 0
  {
    {a.p - HEADER} + RowHeaders(a.rows)
  }

  function RowHeaders(rows: seq<Arr>): set<int>
    decreases rows
  {
    if rows == [] then {} else Headers(rows[0]) + RowHeaders(rows[1..])
  }

  /** The size of a block: what the code asks for, or what the length needs. */
  datatype Room = Asked | Full

  function BlockSize(length: int, room: Room): int {
    HEADER + if room == Asked then ArrayBytes(length) else 4 + ELEMENT * length
  }

  /** A tree of the given lengths: every array is a live block of its own that starts with its length, its
      elements point to its rows or are zero. An innermost array may have a block that is too small for
      its length when blocks have the size that is asked for; the elements inside are zero then. */
  ghost predicate Tree(m: Mem, live: Blocks, a: Arr, dims: seq<int>, room: Room)
    requires dims != []
    decreases |dims|, 0
  {
    var b := a.p - HEADER;
    && b in live && live[b] == BlockSize(dims[0], room) && Read32(m, b) == live[b]
    && a.p + 4 <= b + live[b] && Read32(m, a.p) == dims[0]
    && if |dims| == 1 then a.rows == [] && ZeroElements(m, a.p, dims[0], b + live[b])
       else
         && ElementAddress(a.p, dims[0]) <= b + live[b]
         && b !in RowHeaders(a.rows)
         && Rows(m, live, a.p, 0, a.rows, dims, room)
         && |a.rows| == dims[0]
  }

  /** The elements that lie below the end of the block are zero. */
  ghost predicate ZeroElements(m: Mem, p: int, length: int, end: int) {
    forall i | 0 <= i < length && ElementAddress(p, i) + 4 <= end :: Read32(m, ElementAddress(p, i)) == 0
  }

  /** The rows from number i on. */
  ghost predicate Rows(m: Mem, live: Blocks, p: int, i: int, rows: seq<Arr>, dims: seq<int>, room: Room)
    requires |dims| > 1
    decreases |dims| - 1, 1, |rows|
  {
    rows != [] ==>
      && Read32(m, ElementAddress(p, i)) == rows[0].p
      && Tree(m, live, rows[0], dims[1..], room)
      && Headers(rows[0]) !! RowHeaders(rows[1..])
      && Rows(m, live, p, i + 1, rows[1..], dims, room)
  }

  /** Bytes of the blocks whose headers are given. */
  ghost predicate InBlocks(live: Blocks, hs: set<int>, x: int) {
    exists b | b in hs && b in live :: b <= x < b + live[b]
  }

  ghost predicate SameIn(m: Mem, m': Mem, live: Blocks, hs: set<int>) {
    forall x | InBlocks(live, hs, x) :: Get(m', x) == Get(m, x)
  }

  ghost predicate Grows(live: Blocks, live': Blocks) {
    forall b | b in live :: b in live' && live'[b] == live[b]
  }

  lemma {:induction false} SameInPart(m: Mem, m': Mem, live: Blocks, hs: set<int>, part: set<int>)
    requires SameIn(m, m', live, hs) && part <= hs
    ensures SameIn(m, m', live, part)
  {
    forall x | InBlocks(live, part, x)
      ensures Get(m', x) == Get(m, x)
    {
      assert InBlocks(live, hs, x);
    }
  }

  lemma {:induction false} SameWordIn(m: Mem, m': Mem, live: Blocks, hs: set<int>, b: int, a: int)
    requires SameIn(m, m', live, hs) && b in hs && b in live && b <= a && a + 4 <= b + live[b]
    ensures Read32(m', a) == Read32(m, a)
  {
    assert forall x | a <= x < a + 4 :: InBlocks(live, hs, x);
    SameWord(m, m', a);
  }

  /** A tree stays as long as the bytes of its blocks do. */
  lemma {:induction false} TreeKept(m: Mem, m': Mem, live: Blocks, live': Blocks, a: Arr, dims: seq<int>, room: Room)
    requires dims != [] && Tree(m, live, a, dims, room) && SameIn(m, m', live, Headers(a)) && Grows(live, live')
    ensures Tree(m', live', a, dims, room)
    decreases |dims|, 0
  {
    hide Read32, Get, SameIn, BlockSize;
    var b := a.p - HEADER;
    SameWordIn(m, m', live, Headers(a), b, b);
    SameWordIn(m, m', live, Headers(a), b, a.p);
    if |dims| == 1 {
      forall i | 0 <= i < dims[0] && ElementAddress(a.p, i) + 4 <= b + live[b]
        ensures Read32(m', ElementAddress(a.p, i)) == 0
      {
        SameWordIn(m, m', live, Headers(a), b, ElementAddress(a.p, i));
      }
    } else {
      SameInPart(m, m', live, Headers(a), RowHeaders(a.rows));
      forall i | 0 <= i < dims[0]
        ensures Read32(m', ElementAddress(a.p, i)) == Read32(m, ElementAddress(a.p, i))
      {
        SameWordIn(m, m', live, Headers(a), b, ElementAddress(a.p, i));
      }
      RowsKept(m, m', live, live', a.p, 0, a.rows, dims, room);
    }
  }

  lemma {:induction false} RowsKept(m: Mem, m': Mem, live: Blocks, live': Blocks, p: int, i: int, rows: seq<Arr>,
                                    dims: seq<int>, room: Room)
    requires |dims| > 1 && Rows(m, live, p, i, rows, dims, room)
    requires SameIn(m, m', live, RowHeaders(rows)) && Grows(live, live')
    requires forall k | i <= k < i + |rows| :: Read32(m', ElementAddress(p, k)) == Read32(m, ElementAddress(p, k))
    ensures Rows(m', live', p, i, rows, dims, room)
    decreases |dims| - 1, 1, |rows|
  {
    hide Read32, Get, SameIn, Tree;
    if rows != [] {
      SameInPart(m, m', live, RowHeaders(rows), Headers(rows[0]));
      SameInPart(m, m', live, RowHeaders(rows), RowHeaders(rows[1..]));
      TreeKept(m, m', live, live', rows[0], dims[1..], room);
      RowsKept(m, m', live, live', p, i + 1, rows[1..], dims, room);
    }
  }

  // ---------------------------------------------------------------- full blocks

  /** When every length that is reached fits, the blocks asked for are the blocks needed. */
  lemma {:induction false} FittingTreeIsFull(m: Mem, live: Blocks, a: Arr, dims: seq<int>)
    requires dims != [] && WordLengths(dims) && LengthsFit(dims) && Tree(m, live, a, dims, Asked)
    ensures Tree(m, live, a, dims, Full)
    decreases |dims|, 0
  {
    hide Read32;
    RequestExact(dims[0]);
    if |dims| > 1 && dims[0] > 0 {
      FittingRowsAreFull(m, live, a.p, 0, a.rows, dims);
    }
  }

  lemma {:induction false} FittingRowsAreFull(m: Mem, live: Blocks, p: int, i: int, rows: seq<Arr>, dims: seq<int>)
    requires |dims| > 1 && WordLengths(dims) && LengthsFit(dims[1..]) && Rows(m, live, p, i, rows, dims, Asked)
    ensures Rows(m, live, p, i, rows, dims, Full)
    decreases |dims| - 1, 1, |rows|
  {
    hide Read32, Tree, LengthsFit;
    if rows != [] {
      FittingTreeIsFull(m, live, rows[0], dims[1..]);
      FittingRowsAreFull(m, live, p, i + 1, rows[1..], dims);
    }
  }

  /** Conversely full blocks of a heap cannot be longer than the heap. */
  lemma {:induction false} FullTreeFits(h: HeapState, live: Blocks, hb: int, m: Mem, a: Arr, dims: seq<int>)
    requires dims != [] && WordLengths(dims) && Partition(h.free, h.hp, live, hb) && Tree(m, live, a, dims, Full)
    ensures LengthsFit(dims)
    decreases |dims|
  {
    hide Read32, Canonical, Offers, SumFree, SumLive, Live, Disjoint;
    assert HEADER + 4 + ELEMENT * dims[0] <= h.hp;
    if |dims| > 1 && dims[0] > 0 {
      FullTreeFits(h, live, hb, m, a.rows[0], dims[1..]);
    }
  }
}
