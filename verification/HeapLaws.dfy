/** The free list as a set of addresses: in canonical form it is determined by that set, so allocating
    and releasing are taking addresses out of the set and putting them back. */
module HeapLaws {
  import opened Words
  import opened Heap

  /** In address order, no empty block, no two blocks that touch, all between the heap base and the top. */
  ghost predicate Canonical(fl: FreeList, lo: int) {
    && (forall i | 0 <= i < |fl| :: fl[i].size > 0 && lo <= fl[i].addr && fl[i].addr + fl[i].size <= MAX_ADDR)
    && (forall i, j | 0 <= i < j < |fl| :: fl[i].addr + fl[i].size < fl[j].addr)
  }

  predicate Within(b: FreeBlock, x: int) {
    b.addr <= x < b.addr + b.size
  }

  /** The addresses a list offers. */
  ghost predicate Offers(fl: FreeList, x: int) {
    exists i | 0 <= i < |fl| :: Within(fl[i], x)
  }

  function SumFree(fl: FreeList): int {
    if fl == [] then 0 else fl[0].size + SumFree(fl[1..])
  }

  // ---------------------------------------------------------------- the set determines the list

  lemma {:induction false} FirstIsLeast(fl: FreeList, lo: int, x: int)
    requires Canonical(fl, lo) && fl != []
    ensures Offers(fl, x) ==> fl[0].addr <= x
    ensures Offers(fl, fl[0].addr)
    ensures !Offers(fl, fl[0].addr + fl[0].size)
    ensures fl[0].addr <= x < fl[0].addr + fl[0].size ==> Offers(fl, x)
  {
    assert Within(fl[0], fl[0].addr);
  }

  lemma {:induction false} TailFree(fl: FreeList, lo: int, x: int)
    requires Canonical(fl, lo) && fl != []
    ensures Canonical(fl[1..], lo)
    ensures Offers(fl[1..], x) <==> Offers(fl, x) && !Within(fl[0], x)
  {
    if Offers(fl, x) && !Within(fl[0], x) {
      var i :| 0 <= i < |fl| && Within(fl[i], x);
      assert fl[1..][i - 1] == fl[i];
    }
    if Offers(fl[1..], x) {
      var i :| 0 <= i < |fl[1..]| && Within(fl[1..][i], x);
      assert fl[i + 1] == fl[1..][i];
    }
  }

  /** Two canonical lists that offer the same addresses are the same list. */
  lemma {:induction false} CanonicalUnique(f: FreeList, g: FreeList, lo: int)
    requires Canonical(f, lo) && Canonical(g, lo) && forall x :: Offers(f, x) <==> Offers(g, x)
    ensures f == g
    decreases |f|
  {
    if f == [] || g == [] {
      if g != [] { FirstIsLeast(g, lo, 0); }
      if f != [] { FirstIsLeast(f, lo, 0); }
    } else {
      FirstIsLeast(f, lo, 0);
      assert Offers(g, f[0].addr);
      SameFirst(f, g, lo);
      forall x
        ensures Offers(f[1..], x) <==> Offers(g[1..], x)
      {
        TailFree(f, lo, x);
        TailFree(g, lo, x);
      }
      TailFree(f, lo, 0);
      TailFree(g, lo, 0);
      CanonicalUnique(f[1..], g[1..], lo);
      assert f == [f[0]] + f[1..] && g == [g[0]] + g[1..];
    }
  }

  lemma {:induction false} SameFirst(f: FreeList, g: FreeList, lo: int)
    requires Canonical(f, lo) && Canonical(g, lo) && f != [] && g != [] && forall x :: Offers(f, x) <==> Offers(g, x)
    ensures f[0] == g[0]
  {
    FirstIsLeast(f, lo, g[0].addr);
    FirstIsLeast(g, lo, f[0].addr);
    assert Offers(f, g[0].addr) && Offers(g, f[0].addr);
    FirstIsLeast(f, lo, g[0].addr + g[0].size);
    FirstIsLeast(g, lo, f[0].addr + f[0].size);
  }

  // ---------------------------------------------------------------- taking

  lemma {:induction false} TakeAt(fl: FreeList, i: nat, need: int)
    requires i < |fl|
    ensures var t := Take(fl, i, need);
      if fl[i].size == need then |t| == |fl| - 1
        && forall k {:trigger t[k]} | 0 <= k < |t| :: t[k] == if k < i then fl[k] else fl[k + 1]
      else
        |t| == |fl| && forall k {:trigger t[k]} | 0 <= k < |t| :: t[k] == if k == i
          then FreeBlock(fl[i].size - need, fl[i].addr + need) else fl[k]
  {
  }

  lemma {:induction false} TakeFree(fl: FreeList, i: nat, need: int, lo: int, x: int)
    requires Canonical(fl, lo) && i < |fl| && 0 < need <= fl[i].size
    ensures Offers(Take(fl, i, need), x) <==> Offers(fl, x) && !(fl[i].addr <= x < fl[i].addr + need)
  {
    hide Take;
    var t, whole := Take(fl, i, need), fl[i].size == need;
    TakeAt(fl, i, need);
    if Offers(fl, x) && !(fl[i].addr <= x < fl[i].addr + need) {
      var k :| 0 <= k < |fl| && Within(fl[k], x);
      assert Within(t[if whole && k > i then k - 1 else k], x);
    }
    if Offers(t, x) {
      var k :| 0 <= k < |t| && Within(t[k], x);
      assert Within(fl[if whole && k >= i then k + 1 else k], x);
    }
  }

  /** Taking from the front of a block removes those addresses and keeps the form. */
  lemma {:induction false} TakeEffect(fl: FreeList, i: nat, need: int, lo: int)
    requires Canonical(fl, lo) && i < |fl| && 0 < need <= fl[i].size
    ensures Canonical(Take(fl, i, need), lo)
    ensures forall x :: Offers(Take(fl, i, need), x) <==> Offers(fl, x) && !(fl[i].addr <= x < fl[i].addr + need)
  {
    hide Take, Offers;
    TakeAt(fl, i, need);
    forall x
      ensures Offers(Take(fl, i, need), x) <==> Offers(fl, x) && !(fl[i].addr <= x < fl[i].addr + need)
    {
      TakeFree(fl, i, need, lo, x);
    }
  }

  // ---------------------------------------------------------------- releasing

  /** A block none of whose bytes is free. */
  ghost predicate Releasable(fl: FreeList, b: FreeBlock, lo: int) {
    b.size > 0 && lo <= b.addr && b.addr + b.size <= MAX_ADDR && forall x | Within(b, x) :: !Offers(fl, x)
  }

  /** Like canonical, but neighbours may touch. */
  ghost predicate Ordered(fl: FreeList, lo: int) {
    && (forall i | 0 <= i < |fl| :: fl[i].size > 0 && lo <= fl[i].addr && fl[i].addr + fl[i].size <= MAX_ADDR)
    && (forall i, j | 0 <= i < j < |fl| :: fl[i].addr + fl[i].size <= fl[j].addr)
  }

  /** Block k does not touch the next one. */
  predicate Gap(fl: FreeList, k: int) {
    0 <= k < |fl| - 1 ==> fl[k].addr + fl[k].size < fl[k + 1].addr
  }

  lemma {:induction false} GapsMakeCanonical(fl: FreeList, lo: int)
    requires Ordered(fl, lo) && forall k :: Gap(fl, k)
    ensures Canonical(fl, lo)
  {
    forall i, j | 0 <= i < j < |fl|
      ensures fl[i].addr + fl[i].size < fl[j].addr
    {
      assert Gap(fl, i);
    }
  }

  function Insert(fl: FreeList, i: nat, b: FreeBlock): FreeList
    requires i <= |fl|
  {
    fl[..i] + [b] + fl[i..]
  }

  lemma {:induction false} InsertedAt(fl: FreeList, i: nat, b: FreeBlock)
    requires i <= |fl|
    ensures var ins := Insert(fl, i, b);
      |ins| == |fl| + 1 && forall k {:trigger ins[k]} | 0 <= k < |ins| :: ins[k] == if k < i then fl[k]
        else if k == i then b else fl[k - 1]
  {
  }

  lemma {:induction false} InsertFree(fl: FreeList, i: nat, b: FreeBlock, x: int)
    requires i <= |fl|
    ensures Offers(Insert(fl, i, b), x) <==> Offers(fl, x) || Within(b, x)
  {
    hide Insert;
    var ins := Insert(fl, i, b);
    InsertedAt(fl, i, b);
    if Offers(fl, x) {
      var k :| 0 <= k < |fl| && Within(fl[k], x);
      assert Within(ins[if k < i then k else k + 1], x);
    }
    if Within(b, x) {
      assert Within(ins[i], x);
    }
    if Offers(ins, x) {
      var k :| 0 <= k < |ins| && Within(ins[k], x);
      assert k == i || Within(fl[if k < i then k else k - 1], x);
    }
  }

  lemma {:induction false} NoOverlap(fl: FreeList, b: FreeBlock, k: nat, lo: int)
    requires Canonical(fl, lo) && Releasable(fl, b, lo) && k < |fl|
    ensures fl[k].addr + fl[k].size <= b.addr || b.addr + b.size <= fl[k].addr
  {
    var x := Max(fl[k].addr, b.addr);
    if fl[k].addr + fl[k].size > b.addr && b.addr + b.size > fl[k].addr {
      assert Within(fl[k], x) && Within(b, x);
    }
  }

  /** The free blocks before its place end at or below a released block, the others start behind it. */
  lemma {:induction false} InsertPlace(fl: FreeList, b: FreeBlock, lo: int)
    requires Canonical(fl, lo) && Releasable(fl, b, lo)
    ensures forall k | 0 <= k < InsertAt(fl, b.addr) :: fl[k].addr + fl[k].size <= b.addr
    ensures forall k | InsertAt(fl, b.addr) <= k < |fl| :: b.addr + b.size <= fl[k].addr
  {
    hide Offers;
    forall k | 0 <= k < |fl|
      ensures if k < InsertAt(fl, b.addr) then fl[k].addr + fl[k].size <= b.addr else b.addr + b.size <= fl[k].addr
    {
      NoOverlap(fl, b, k, lo);
    }
  }

  /** At its place, a released block keeps the order; only it may touch a neighbour. */
  lemma {:induction false} InsertOrdered(fl: FreeList, b: FreeBlock, lo: int)
    requires Canonical(fl, lo) && Releasable(fl, b, lo)
    ensures var i := InsertAt(fl, b.addr);
      Ordered(Insert(fl, i, b), lo) && forall k | k != i - 1 && k != i :: Gap(Insert(fl, i, b), k)
  {
    hide Insert, Offers, InsertAt;
    InsertPlace(fl, b, lo);
    InsertedAt(fl, InsertAt(fl, b.addr), b);
  }

  lemma {:induction false} MergedAt(fl: FreeList, p: nat)
    requires p + 1 < |fl| && fl[p].addr + fl[p].size == fl[p + 1].addr
    ensures var m := MergeAt(fl, p);
      && |m| == |fl| - 1
      && forall k {:trigger m[k]} | 0 <= k < |m| ::
           m[k] == if k < p then fl[k] else if k == p then FreeBlock(fl[p].size + fl[p + 1].size, fl[p].addr)
             else fl[k + 1]
  {
  }

  /** Merging at p offers the same addresses. */
  lemma {:induction false} MergeFree(fl: FreeList, p: nat, lo: int, x: int)
    requires Ordered(fl, lo) && p < |fl|
    ensures Offers(MergeAt(fl, p), x) <==> Offers(fl, x)
  {
    if p + 1 < |fl| && fl[p].addr + fl[p].size == fl[p + 1].addr {
      hide MergeAt;
      var m := MergeAt(fl, p);
      MergedAt(fl, p);
      if Offers(fl, x) {
        var k :| 0 <= k < |fl| && Within(fl[k], x);
        assert Within(m[if k <= p then k else k - 1], x);
      }
      if Offers(m, x) {
        var k :| 0 <= k < |m| && Within(m[k], x);
        assert if k < p then Within(fl[k], x) else if k > p then Within(fl[k + 1], x)
               else Within(fl[p], x) || Within(fl[p + 1], x);
      }
    }
  }

  /** Merging at p leaves a gap there, or shortens the list and keeps the gaps of all other blocks. */
  lemma {:induction false} MergeGaps(fl: FreeList, p: nat, lo: int)
    requires Ordered(fl, lo) && p < |fl|
    ensures Ordered(MergeAt(fl, p), lo)
    ensures |MergeAt(fl, p)| <= |fl|
    ensures |MergeAt(fl, p)| == |fl| ==> MergeAt(fl, p) == fl && Gap(fl, p)
    ensures |MergeAt(fl, p)| < |fl| ==>
      p < |MergeAt(fl, p)|
      && forall k {:trigger Gap(MergeAt(fl, p), k)} ::
           (if k < p then Gap(fl, k) else Gap(fl, k + 1)) ==> Gap(MergeAt(fl, p), k)
  {
    if p + 1 < |fl| && fl[p].addr + fl[p].size == fl[p + 1].addr {
      hide MergeAt, Ordered, Gap;
      MergedAt(fl, p);
      MergeOrdered(fl, p, lo);
      var m := MergeAt(fl, p);
      forall k | if k < p then Gap(fl, k) else Gap(fl, k + 1)
        ensures Gap(m, k)
      {
        MergeGap(fl, p, k);
      }
    }
  }

  lemma {:induction false} MergeOrdered(fl: FreeList, p: nat, lo: int)
    requires Ordered(fl, lo) && p + 1 < |fl| && fl[p].addr + fl[p].size == fl[p + 1].addr
    ensures Ordered(MergeAt(fl, p), lo)
  {
    hide MergeAt;
    MergedAt(fl, p);
  }

  lemma {:induction false} MergeGap(fl: FreeList, p: nat, k: int)
    requires p + 1 < |fl| && fl[p].addr + fl[p].size == fl[p + 1].addr && if k < p then Gap(fl, k) else Gap(fl, k + 1)
    ensures Gap(MergeAt(fl, p), k)
  {
    hide MergeAt;
    MergedAt(fl, p);
    var m := MergeAt(fl, p);
    if 0 <= k < |m| - 1 {
      assert m[k].addr + m[k].size < m[k + 1].addr;
    }
  }

  lemma {:induction false} MergeSame(fl: FreeList, p: nat, lo: int)
    requires Ordered(fl, lo) && p < |fl|
    ensures forall x :: Offers(MergeAt(fl, p), x) <==> Offers(fl, x)
  {
    forall x
      ensures Offers(MergeAt(fl, p), x) <==> Offers(fl, x)
    {
      MergeFree(fl, p, lo, x);
    }
  }

  /** Releasing a block adds exactly its addresses and restores the form. */
  lemma {:induction false} ReleaseEffect(fl: FreeList, b: FreeBlock, lo: int)
    requires Canonical(fl, lo) && Releasable(fl, b, lo)
    ensures Canonical(Release(fl, b), lo)
    ensures forall x :: Offers(Release(fl, b), x) <==> Offers(fl, x) || Within(b, x)
  {
    hide Offers, Canonical, Ordered, Gap, Releasable, MergeAt;
    var i := InsertAt(fl, b.addr);
    var ins := Insert(fl, i, b);
    InsertOrdered(fl, b, lo);
    InsertedAt(fl, i, b);
    forall x
      ensures Offers(ins, x) <==> Offers(fl, x) || Within(b, x)
    {
      InsertFree(fl, i, b, x);
    }
    if i == 0 {
      MergeGaps(ins, 0, lo);
      MergeSame(ins, 0, lo);
      FirstHasNoGapBefore(ins);
    } else {
      var m := MergeAt(ins, i - 1);
      MergeGaps(ins, i - 1, lo);
      MergeSame(ins, i - 1, lo);
      var q := if |m| < |ins| then i - 1 else i;
      MergeGaps(m, q, lo);
      MergeSame(m, q, lo);
    }
    forall k
      ensures Gap(Release(fl, b), k)
    {
    }
    GapsMakeCanonical(Release(fl, b), lo);
  }

  lemma {:induction false} FirstHasNoGapBefore(fl: FreeList)
    ensures Gap(fl, -1)
  {
  }
}
