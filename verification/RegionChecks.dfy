/** What the VM's address checks let through: slot 0 of a frame, accesses that only begin in their region, and
    the byte at HP, which belongs to no block. */
module RegionChecks {
  import opened Words
  import opened Isa
  import opened FlatMemory
  import opened Arithmetic
  import opened Frames
  import opened Machine
  import HeapRuns

  // ---------------------------------------------------------------- slot 0

  /** The frame pointer and the return address that `ret` would restore. */
  function Base(m: Mem, fp: int): (int, int) {
    (Read32(m, fp), Read32(m, fp + 4))
  }

  /** The same after a store of w to a slot. */
  function BaseAfter(c: CallState, slot: int, w: int): (int, int) {
    Base(Write64(c.mem, c.fp + 8 * slot, w), c.fp)
  }

  /** Slot 0 is accepted in every frame, and storing there sets what `ret` restores to the halves of the value. */
  lemma {:induction false} SlotZeroAccepted(c: CallState, w: int)
    requires c.frames != [] && c.frames[|c.frames| - 1].locals >= 0 && IsWord(c.fp) && 0 <= w < W64
    ensures SlotAddress(c, 0) == Outcome.Ok(c.fp)
    ensures BaseAfter(c, 0, w) == (w % W32, w / W32)
  {
    hide Read32, Write32;
    var m1 := Write32(c.mem, c.fp, w % W32);
    Read32Write32(c.mem, c.fp, w % W32);
    Read32Other(m1, c.fp + 4, w / W32 % W32, c.fp);
    Read32Write32(m1, c.fp + 4, w / W32 % W32);
  }

  /** Among the slots the check accepts, slot 0 is the only one through which a store can change where `ret`
      goes. */
  lemma {:induction false} SlotStoreExact(c: CallState, slot: int)
    requires SlotAddress(c, slot) == Outcome.Ok(c.fp + 8 * slot) && c.frames[|c.frames| - 1].locals >= 0 && IsWord(c.fp)
    ensures (forall w | 0 <= w < W64 :: BaseAfter(c, slot, w) == Base(c.mem, c.fp)) <==> slot != 0
  {
    hide Read32, Write64, Write32;
    if slot == 0 {
      var fp, ra := Read32(c.mem, c.fp), Read32(c.mem, c.fp + 4);
      var w := if fp == 0 then 1 else 0;
      SlotZeroAccepted(c, w);
      assert BaseAfter(c, slot, w).0 == w;
    } else {
      forall w | 0 <= w < W64
        ensures BaseAfter(c, slot, w) == Base(c.mem, c.fp)
      {
        BaseApart(c.mem, c.fp, c.fp + 8 * slot, w);
      }
    }
  }

  lemma {:induction false} BaseApart(m: Mem, fp: int, p: int, w: int)
    requires p + 8 <= fp || fp + 8 <= p
    ensures Base(Write64(m, p, w), fp) == Base(m, fp)
  {
    hide Read32, Write32;
    var m1 := Write32(m, p, w % W32);
    Read32Other(m, p, w % W32, fp);
    Read32Other(m, p, w % W32, fp + 4);
    Read32Other(m1, p + 4, w / W32 % W32, fp);
    Read32Other(m1, p + 4, w / W32 % W32, fp + 4);
  }

  // ---------------------------------------------------------------- the first byte

  predicate Regions(s: State) {
    0 <= s.dataStart <= s.hb <= s.hp < s.sp <= W32
  }

  /** An access that begins in the data region stays there exactly when it ends below HB; the check accepts it
      either way. */
  lemma {:induction false} DataCheckExact(s: State, a: int, n: nat)
    requires Regions(s) && InData(s, a) && n > 0
    ensures (forall x | a <= x < a + n :: InData(s, x)) <==> a + n <= s.hb
  {
    assert InData(s, a + n - 1) ==> a + n <= s.hb;
  }

  /** An access through a pointer into the heap stays in the regions a pointer may address exactly when it ends
      at HP at the latest or reaches up to the call stack. */
  lemma {:induction false} HeapCheckExact(s: State, a: int, n: nat)
    requires Regions(s) && InHeap(s, a) && n > 0
    ensures (forall x | a <= x < a + n :: InPtr(s, x)) <==> a + n <= s.hp + 1 || s.sp == s.hp + 1
  {
    if !(a + n <= s.hp + 1 || s.sp == s.hp + 1) {
      assert !InPtr(s, s.hp + 1);
    }
  }

  // ---------------------------------------------------------------- the byte at HP

  /** In a sound heap the addresses below HP are those that have been handed out; HP itself passes the check but
      lies in no live block. */
  lemma {:induction false} HpIsOutside(s: State, live: HeapRuns.Blocks)
    requires HeapRuns.HeapOk(s.HeapView(), live, s.hb)
    ensures InHeap(s, s.hp) && InPtr(s, s.hp) && !HeapRuns.Live(live, s.hp)
    ensures forall a | HeapRuns.Live(live, a) :: InHeap(s, a) && a != s.hp
  {
  }

  /** So a store of a word at HP - 3, ..., HP is executed and changes bytes behind the last block. */
  lemma {:induction false} StoreAtHp(code: Code, s: State, live: HeapRuns.Blocks, v: Value)
    requires HeapRuns.HeapOk(s.HeapView(), live, s.hb) && s.status == Running && !IsWide(v.ty)
    requires s.stack == [Value(PTR, s.hp), v]
    ensures var u := Execute(code, s, Store);
      u.status == Running && Read32(u.mem, s.hp) == Low(v) && !HeapRuns.Live(live, s.hp)
  {
    hide HeapRuns.Live, Read32, Write32;
    HpIsOutside(s, live);
    Read32Write32(s.mem, s.hp, Low(v));
    assert Low(Value(PTR, s.hp)) == s.hp;
  }
}
