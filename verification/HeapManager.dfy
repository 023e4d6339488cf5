/** The heap manager as it is written: a linked list of free blocks, relinked and resized in place. */
module HeapManager {
  import opened Words
  import opened Isa
  import opened FlatMemory
  import opened Heap
  import opened HeapLaws

  class FreeNode {
    var size: int
    var address: int
    var next: FreeNode?

    constructor (size: int, address: int, next: FreeNode?)
      ensures this.size == size && this.address == address && this.next == next
    {
      this.size := size;
      this.address := address;
      this.next := next;
    }
  }

  lemma {:induction false} FirstFitAt(fl: FreeList, need: int, k: nat)
    requires k <= |fl| && (forall j | 0 <= j < k :: fl[j].size < need) && (k < |fl| ==> fl[k].size >= need)
    ensures FirstFit(fl, need) == k
  {
  }

  lemma {:induction false} InsertAtIs(fl: FreeList, a: int, k: nat)
    requires k <= |fl| && (forall j | 0 <= j < k :: fl[j].addr < a) && (k < |fl| ==> fl[k].addr >= a)
    ensures InsertAt(fl, a) == k
  {
  }

  ghost function NodeAt(nodes: seq<FreeNode>, i: int): FreeNode? {
    if 0 <= i < |nodes| then nodes[i] else null
  }

  ghost predicate Distinct(s: seq<FreeNode>) {
    forall i, j {:trigger s[i], s[j]} | 0 <= i < j < |s| :: s[i] != s[j]
  }

  lemma {:induction false} OnlyAt(s: seq<FreeNode>, k: nat)
    requires Distinct(s) && k < |s|
    ensures forall i {:trigger s[i]} | 0 <= i < |s| && s[i] == s[k] :: i == k
  {
  }

  /** The nodes reached from a head in order, and the blocks they hold. */
  ghost predicate Chain(head: FreeNode?, nodes: seq<FreeNode>, list: FreeList)
    reads nodes
  {
    && |list| == |nodes|
    && Distinct(nodes)
    && head == NodeAt(nodes, 0)
    && (forall i {:trigger nodes[i].next} | 0 <= i < |nodes| :: nodes[i].next == NodeAt(nodes, i + 1))
    && (forall i {:trigger list[i]} | 0 <= i < |nodes| :: list[i] == FreeBlock(nodes[i].size, nodes[i].address))
  }

  lemma {:induction false} ChainAt(head: FreeNode?, nodes: seq<FreeNode>, list: FreeList, k: nat)
    requires Chain(head, nodes, list) && k < |nodes|
    ensures |list| == |nodes| && nodes[k].next == NodeAt(nodes, k + 1)
    ensures list[k] == FreeBlock(nodes[k].size, nodes[k].address)
  {
  }

  ghost function Without(s: seq<FreeNode>, k: nat): seq<FreeNode>
    requires k < |s|
  {
    s[..k] + s[k + 1..]
  }

  ghost function With(s: seq<FreeNode>, k: nat, x: FreeNode): seq<FreeNode>
    requires k <= |s|
  {
    s[..k] + [x] + s[k..]
  }

  lemma {:induction false} WithoutAt(s: seq<FreeNode>, k: nat)
    requires k < |s|
    ensures var t := Without(s, k);
      |t| == |s| - 1 && forall i {:trigger t[i]} | 0 <= i < |t| :: t[i] == s[if i < k then i else i + 1]
    ensures Distinct(s) ==> Distinct(Without(s, k))
  {
  }

  lemma {:induction false} WithAt(s: seq<FreeNode>, k: nat, x: FreeNode)
    requires k <= |s|
    ensures var t := With(s, k, x);
      |t| == |s| + 1 && forall i {:trigger t[i]} | 0 <= i < |t| :: t[i] == if i < k then s[i] else if i == k then x
        else s[i - 1]
    ensures Distinct(s) && x !in s ==> Distinct(With(s, k, x))
  {
  }

  /** Inside a block of a canonical list the 32-bit sums of allocateBlock do not wrap. */
  lemma {:induction false} BlockFits(fl: FreeList, lo: int, k: nat, size: int, sp: int)
    requires Canonical(fl, lo) && k < |fl| && 0 <= lo && 0 < size < W32 && fl[k].size >= Need(size)
    ensures var a, need := fl[k].addr, Need(size);
      lo <= a && need >= 0 && ToWord(a + need) == a + need && (size + HEADER < W32 ==> need == size + HEADER)
  {
  }

  class HeapManager {
    var freeListHead: FreeNode?
    var HB: int
    var HP: int
    var mem: Mem
    /** The nodes from the head on, and the blocks they hold. */
    ghost var nodes: seq<FreeNode>
    ghost var list: FreeList

    ghost predicate Valid()
      reads this, nodes
    {
      Chain(freeListHead, nodes, list) && Canonical(list, HB) && 0 <= HB <= HP < MAX_ADDR
    }

    ghost function State(): HeapState
      reads this
    {
      HeapState(mem, list, HP)
    }

    constructor (mem: Mem, hp: int)
      requires 0 <= hp < MAX_ADDR
      ensures Valid() && this.mem == mem && HB == hp && HP == hp && list == InitialList(hp)
    {
      this.mem := mem;
      HB := hp;
      HP := hp;
      var head := new FreeNode(MAX_ADDR - hp, hp, null);
      freeListHead := head;
      nodes := [head];
      list := InitialList(hp);
    }

    /** The first free block of at least `need` bytes and its predecessor. */
    method Search(need: int) returns (prev: FreeNode?, curr: FreeNode?, ghost k: nat)
      requires Chain(freeListHead, nodes, list)
      ensures k == FirstFit(list, need) && |list| == |nodes| && k <= |nodes| && curr == NodeAt(nodes, k)
        && prev == if k > 0 then nodes[k - 1] else null
    {
      prev, curr, k := null, freeListHead, 0;
      while curr != null && need > curr.size
        invariant k <= |nodes| && curr == NodeAt(nodes, k) && prev == if k > 0 then nodes[k - 1] else null
        invariant forall j | 0 <= j < k :: list[j].size < need
        decreases |nodes| - k
      {
        prev, curr, k := curr, curr.next, k + 1;
      }
      FirstFitAt(list, need, k);
    }

    /** The code lies below the heap base, and code that asks for a block is longer than a block header. */
    method AllocateBlock(size: int, SP: int) returns (r: Outcome<int>)
      requires Valid() && IsWord(size) && SP <= MAX_ADDR && HEADER <= HB
      modifies this, nodes
      ensures match Allocate(old(State()), size, SP)
              case Ok((h, p)) => r == Outcome.Ok(p) && State() == h && Valid() && HB == old(HB)
              case Err(f) => r == Outcome.Err(f)
    {
      hide Chain, ZeroFrom, Write32, Take, FirstFit, Offers, Canonical, ToWord;
      if size == 0 {
        return Outcome.Err(Internal);
      }
      var bytesToAllocate := ToWord(size + HEADER);
      var prev, curr;
      ghost var k;
      prev, curr, k := Search(bytesToAllocate);
      if curr != null {
        ChainAt(freeListHead, nodes, list, k);
      }
      if curr == null || ToWord(curr.address + bytesToAllocate) >= SP {
        return Outcome.Err(OutOfMemory);
      }
      var a := curr.address;
      BlockFits(list, HB, k, size, SP);
      if a + bytesToAllocate > HP {
        HP := a + bytesToAllocate;
      }
      mem := Write32(mem, a, bytesToAllocate);
      var ok := ZeroPayload(a, size);
      if !ok {
        return Outcome.Err(Internal);
      }
      TakeEffect(list, k, bytesToAllocate, HB);
      Detach(prev, curr, bytesToAllocate, k);
      return Outcome.Ok(a + HEADER);
    }

    /** Zero the payload byte by byte; leaving the heap region raises. */
    method ZeroPayload(a: int, size: int) returns (ok: bool)
      requires HEADER <= HB <= a <= HP < MAX_ADDR && 0 < size < W32
      requires size + HEADER < W32 ==> a + HEADER + size <= HP
      modifies this`mem
      ensures ok <==> size + HEADER < W32
      ensures ok ==> mem == ZeroFrom(old(mem), a + HEADER, size)
    {
      var addressOffset := 0;
      while addressOffset < size
        invariant 0 <= addressOffset <= size && mem == ZeroFrom(old(mem), a + HEADER, addressOffset)
        invariant addressOffset > 0 ==> a + HEADER + addressOffset <= HP + 1
      {
        assert a + HEADER + addressOffset < W32 + HEADER;
        var address := ToWord(a + HEADER + addressOffset);
        if !(HB <= address <= HP) {
          return false;
        }
        mem := Write8(mem, address, 0);
        addressOffset := addressOffset + 1;
      }
      return true;
    }

    /** Take bytes from the front of node k: unlink it when they are all of it, else shrink it. */
    method Detach(prev: FreeNode?, curr: FreeNode, bytesToAllocate: int, ghost k: nat)
      requires Chain(freeListHead, nodes, list) && k < |nodes| && curr == nodes[k]
        && prev == if k > 0 then nodes[k - 1] else null
      modifies this`freeListHead, this`nodes, this`list, nodes
      ensures Chain(freeListHead, nodes, list) && list == Take(old(list), k, bytesToAllocate)
    {
      hide Take;
      OnlyAt(nodes, k);
      if curr.size == bytesToAllocate {
        Unlink(prev, curr, k);
      } else {
        ghost var was := list;
        curr.size := curr.size - bytesToAllocate;
        curr.address := curr.address + bytesToAllocate;
        list := Take(list, k, bytesToAllocate);
        TakeAt(was, k, bytesToAllocate);
      }
    }

    method Unlink(prev: FreeNode?, curr: FreeNode, ghost k: nat)
      requires Chain(freeListHead, nodes, list) && k < |nodes| && curr == nodes[k]
        && prev == if k > 0 then nodes[k - 1] else null
      modifies this`freeListHead, this`nodes, this`list, if prev == null then {} else {prev}
      ensures Chain(freeListHead, nodes, list) && list == Take(old(list), k, old(curr.size))
    {
      hide Take, Without, Distinct;
      OnlyAt(nodes, k);
      if k > 0 {
        OnlyAt(nodes, k - 1);
      }
      ghost var was, before := list, nodes;
      if prev == null {
        freeListHead := curr.next;
      } else {
        prev.next := curr.next;
      }
      nodes := Without(before, k);
      list := Take(list, k, curr.size);
      TakeAt(was, k, curr.size);
      WithoutAt(before, k);
    }

    /** The first node at or above an address and its predecessor. */
    method SearchAddress(blockAddress: int) returns (prev: FreeNode?, curr: FreeNode?, ghost k: nat)
      requires Chain(freeListHead, nodes, list)
      ensures k == InsertAt(list, blockAddress) && |list| == |nodes| && k <= |nodes| && curr == NodeAt(nodes, k)
        && prev == if k > 0 then nodes[k - 1] else null
    {
      prev, curr, k := null, freeListHead, 0;
      while curr != null && curr.address < blockAddress
        invariant k <= |nodes| && curr == NodeAt(nodes, k) && prev == if k > 0 then nodes[k - 1] else null
        invariant forall j | 0 <= j < k :: list[j].addr < blockAddress
        decreases |nodes| - k
      {
        prev, curr, k := curr, curr.next, k + 1;
      }
      InsertAtIs(list, blockAddress, k);
    }

    /** Give the block whose payload starts at an address back to the list. */
    method DeallocateBlock(address: int)
      requires Valid() && HB <= address - HEADER <= HP
      requires Releasable(list, FreeBlock(Read32(mem, address - HEADER), address - HEADER), HB)
      modifies this`freeListHead, this`nodes, this`list, nodes
      ensures State() == Deallocate(old(State()), address) && Valid()
    {
      hide Chain, Releasable, Canonical, Offers, MergeAt, InsertAt, Read32, With, Without;
      var blockAddress := address - HEADER;
      var bytesToDeallocate := Read32(mem, blockAddress);
      ghost var was, b := list, FreeBlock(bytesToDeallocate, blockAddress);
      ReleaseEffect(was, b, HB);
      var prev, curr;
      ghost var k;
      prev, curr, k := SearchAddress(blockAddress);
      var newFreeBlock := new FreeNode(bytesToDeallocate, blockAddress, curr);
      Attach(prev, newFreeBlock, k);
      var node := newFreeBlock;
      ghost var p := k;
      if prev != null {
        ChainAt(freeListHead, nodes, list, p);
        var merged := MergeIfAdjacentBlocks(prev, node, k - 1);
        if merged {
          node, p := prev, k - 1;
        }
      }
      ChainAt(freeListHead, nodes, list, p);
      if node.next != null {
        var merged := MergeIfAdjacentBlocks(node, node.next, p);
      } else {
        MergeShape(list, p);
      }
    }

    /** Link a new node in front of position k. */
    method Attach(prev: FreeNode?, node: FreeNode, ghost k: nat)
      requires Chain(freeListHead, nodes, list) && k <= |nodes| && prev == (if k > 0 then nodes[k - 1] else null)
      requires node !in nodes && node.next == NodeAt(nodes, k)
      modifies this`freeListHead, this`nodes, this`list, if prev == null then {} else {prev}
      ensures Chain(freeListHead, nodes, list) && list == Insert(old(list), k, FreeBlock(node.size, node.address)) 
      ensures k < |nodes| == |old(nodes)| + 1 && nodes[k] == node && (k > 0 ==> nodes[k - 1] == prev)
    {
      hide Insert, With, Distinct;
      if k > 0 {
        OnlyAt(nodes, k - 1);
      }
      ghost var was, before := list, nodes;
      if prev == null {
        freeListHead := node;
      } else {
        prev.next := node;
      }
      nodes := With(before, k, node);
      list := Insert(was, k, FreeBlock(node.size, node.address));
      WithAt(before, k, node);
      InsertedAt(was, k, FreeBlock(node.size, node.address));
    }

    /** Node p swallows its successor when the two touch. */
    method MergeIfAdjacentBlocks(block1: FreeNode, block2: FreeNode, ghost p: nat) returns (merged: bool)
      requires Chain(freeListHead, nodes, list) && p + 1 < |nodes| && block1 == nodes[p] && block2 == nodes[p + 1]
      modifies this`nodes, this`list, block1
      ensures Chain(freeListHead, nodes, list) && list == MergeAt(old(list), p) && freeListHead == old(freeListHead)
      ensures |list| == if merged then |old(list)| - 1 else |old(list)|
      ensures if merged then |nodes| == |old(nodes)| - 1 && nodes[p] == block1 else nodes == old(nodes)
    {
      hide MergeAt, Without, Distinct;
      OnlyAt(nodes, p);
      MergeShape(list, p);
      if block1.address + block1.size == block2.address {
        ghost var was, before := list, nodes;
        block1.size := block1.size + block2.size;
        block1.next := block2.next;
        nodes := Without(before, p + 1);
        list := MergeAt(was, p);
        WithoutAt(before, p + 1);
        MergedAt(was, p);
        return true;
      }
      return false;
    }
  }

  lemma {:induction false} MergeShape(fl: FreeList, p: nat)
    requires p < |fl|
    ensures p + 1 == |fl| || fl[p].addr + fl[p].size != fl[p + 1].addr ==> MergeAt(fl, p) == fl
  {
  }
}
