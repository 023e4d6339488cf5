/** The free-list allocator as functions on the list of free blocks.
    `HeapManager` in HeapManager.dfy runs these on linked nodes. */
module Heap {
  import opened Words
  import opened Isa
  import opened FlatMemory

  const HEADER := 4

  datatype FreeBlock = FreeBlock(size: int, addr: int)

  type FreeList = seq<FreeBlock>

  datatype HeapState = HeapState(mem: Mem, free: FreeList, hp: int)

  /** The list a fresh heap starts with. */
  function InitialList(hb: int): FreeList {
    [FreeBlock(MAX_ADDR - hb, hb)]
  }

  /** Index of the first free block of at least `need` bytes, or |fl|. */
  function FirstFit(fl: FreeList, need: int): (i: nat)
    ensures i <= |fl|
    ensures forall k | 0 <= k < i :: fl[k].size < need
    ensures i < |fl| ==> fl[i].size >= need
  {
    if fl == [] then 0
    else if need <= fl[0].size then 0
    else FirstFit(fl[1..], need) + 1
  }

  function ZeroFrom(m: Mem, a: int, n: nat): Mem {
    if n == 0 then m else Write8(ZeroFrom(m, a, n - 1), a + n - 1, 0)
  }

  /** The list with `need` bytes taken from the front of block i. */
  function Take(fl: FreeList, i: nat, need: int): FreeList
    requires i < |fl|
  {
    if fl[i].size == need then fl[..i] + fl[i + 1..]
    else fl[..i] + [FreeBlock(fl[i].size - need, fl[i].addr + need)] + fl[i + 1..]
  }

  /** Block size with its header, in 32-bit arithmetic. */
  function Need(size: int): int {
    ToWord(size + HEADER)
  }

  /** allocateBlock: the new heap state and the address after the header.
      When size + 4 wraps around, the zeroing loop leaves the heap region and raises. */
  function Allocate(h: HeapState, size: int, sp: int): Outcome<(HeapState, int)>
    requires IsWord(size)
  {
    if size == 0 then Err(Internal)
    else
      var need := Need(size);
      var i := FirstFit(h.free, need);
      if i == |h.free| || ToWord(h.free[i].addr + need) >= sp then Err(OutOfMemory)
      else if size + HEADER >= W32 then Err(Internal)
      else
        var a := h.free[i].addr;
        var mem := ZeroFrom(Write32(h.mem, a, need), a + HEADER, size);
        Ok((HeapState(mem, Take(h.free, i, need), Max(h.hp, a + need)), a + HEADER))
  }

  /** Number of free blocks that lie below an address. */
  function InsertAt(fl: FreeList, a: int): (i: nat)
    ensures i <= |fl|
    ensures forall k | 0 <= k < i :: fl[k].addr < a
    ensures i < |fl| ==> fl[i].addr >= a
  {
    if fl == [] || fl[0].addr >= a then 0 else InsertAt(fl[1..], a) + 1
  }

  /** Merge block i with its successor when the two touch. */
  function MergeAt(fl: FreeList, i: nat): FreeList
    requires i < |fl|
  {
    if i + 1 < |fl| && fl[i].addr + fl[i].size == fl[i + 1].addr
    then fl[..i] + [FreeBlock(fl[i].size + fl[i + 1].size, fl[i].addr)] + fl[i + 2..]
    else fl
  }

  /** Put a block into the list in address order and merge it with its neighbours. */
  function Release(fl: FreeList, b: FreeBlock): FreeList {
    var i := InsertAt(fl, b.addr);
    var inserted := fl[..i] + [b] + fl[i..];
    if i == 0 then MergeAt(inserted, 0)
    else
      var merged := MergeAt(inserted, i - 1);
      MergeAt(merged, if |merged| < |inserted| then i - 1 else i)
  }

  /** deallocateBlock for the block whose payload starts at an address. */
  function Deallocate(h: HeapState, address: int): HeapState {
    var a := address - HEADER;
    h.(free := Release(h.free, FreeBlock(Read32(h.mem, a), a)))
  }
}
