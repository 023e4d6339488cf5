/** Which call frames can be built on pages: the frame of a scope method starts at the top of memory, and its
    cells stay in their pages exactly up to 510 locals. */
module FramePages {
  import opened Words
  import opened Isa
  import opened Frames
  import opened Pages
  import opened Accesses
  import opened PagedMachine

  /** The largest number of locals of a scope method whose frame fits into its pages. */
  const MAX_LOCALS := 510

  lemma {:induction false} LocalWritesCalm(dataStart: int, sp: int, n: nat)
    ensures AllCalm(dataStart, LocalWrites(sp, n)) <==> forall k: nat | k < n ::
      Calm(dataStart, WriteAt(sp + 8 * k, 0, 8))
    decreases n
  {
    hide Calm;
    if n > 0 {
      var last := [WriteAt(sp + 8 * (n - 1), 0, 8)];
      LocalWritesCalm(dataStart, sp, n - 1);
      CalmConcat(dataStart, LocalWrites(sp, n - 1), last);
      assert AllCalm(dataStart, last) <==> Calm(dataStart, last[0]);
    }
  }

  /** The writes of a call without arguments. */
  lemma {:induction false} FrameCalm(dataStart: int, c: CallState, locals: nat, ra: int)
    ensures AllCalm(dataStart, CallWrites(c, FrameInfo(0, locals), [], ra)) <==>
      && (forall k: nat | k < locals :: Calm(dataStart, WriteAt(c.sp - 8 - 8 * locals + 8 * k, 0, 8)))
      && Calm(dataStart, WriteAt(c.sp - 8, c.fp, 4)) && Calm(dataStart, WriteAt(c.sp - 4, ra, 4))
  {
    hide Calm, LocalWrites;
    var fp, sp := c.sp - 8, c.sp - 8 - 8 * locals;
    var base := [WriteAt(fp, c.fp, 4), WriteAt(fp + 4, ra, 4)];
    LocalWritesCalm(dataStart, sp, locals);
    CalmConcat(dataStart, LocalWrites(sp, locals), base);
    assert CallWrites(c, FrameInfo(0, locals), [], ra) == LocalWrites(sp, locals) + base;
    assert AllCalm(dataStart, base) <==> Calm(dataStart, base[0]) && Calm(dataStart, base[1]);
  }

  /** A call of a scope method with an empty call stack writes inside its pages if and only if the method has
      at most 510 locals: cell 512 below the top of memory crosses a page end. */
  lemma {:induction false} ScopeFrameExact(dataStart: int, c: CallState, locals: nat, ra: int)
    requires c.sp == MAX_ADDR && 8 + 8 * locals <= MAX_ADDR && dataStart <= MAX_ADDR - 8 - 8 * locals
    ensures AllCalm(dataStart, CallWrites(c, FrameInfo(0, locals), [], ra)) <==> locals <= MAX_LOCALS
    ensures InPages(CallWrites(c, FrameInfo(0, locals), [], ra)) <==> locals <= MAX_LOCALS
  {
    hide CallWrites, InOnePage;
    FrameCalm(dataStart, c, locals, ra);
    FrameCellStraddles(1);
    var sp := MAX_ADDR - 8 - 8 * locals;
    forall k: nat | k < locals
      ensures InOnePage(sp + 8 * k, 8) <==> (locals - k + 1) % 512 != 0
    {
      FrameCellStraddles(locals - k + 1);
      assert MAX_ADDR - 8 * (locals - k + 1) == sp + 8 * k;
    }
    if locals > MAX_LOCALS {
      var k := locals - 511;
      assert !Calm(dataStart, WriteAt(sp + 8 * k, 0, 8));
    }
    SameInPages(dataStart, CallWrites(c, FrameInfo(0, locals), [], ra), c, locals, ra);
  }

  lemma {:induction false} SameInPages(dataStart: int, xs: seq<Access>, c: CallState, locals: nat, ra: int)
    requires c.sp == MAX_ADDR && dataStart <= MAX_ADDR - 8 - 8 * locals
    requires xs == CallWrites(c, FrameInfo(0, locals), [], ra)
    ensures AllCalm(dataStart, xs) <==> InPages(xs)
  {
    hide InOnePage, LocalWrites;
    var sp := c.sp - 8 - 8 * locals;
    WritesFrom(sp, locals);
    assert xs == LocalWrites(sp, locals) + [WriteAt(c.sp - 8, c.fp, 4), WriteAt(c.sp - 4, ra, 4)];
    forall i | 0 <= i < |xs|
      ensures Calm(dataStart, xs[i]) <==> InOnePage(xs[i].a, xs[i].n)
    {
    }
  }

  lemma {:induction false} WritesFrom(sp: int, n: nat)
    ensures forall i | 0 <= i < |LocalWrites(sp, n)| :: LocalWrites(sp, n)[i].WriteAt? && sp <= LocalWrites(sp, n)[i].a
    decreases n
  {
    if n > 0 {
      WritesFrom(sp, n - 1);
    }
  }

  /** With 511 locals or more the call of a method whose frame fits above the heap is undefined on pages. */
  lemma {:induction false} LargeFrameUndefined(c: CallState, hp: int, locals: nat, ra: int)
    requires c.sp == MAX_ADDR && Enter(c, hp, FrameInfo(0, locals), [], ra).Ok? && 0 <= hp
    ensures PagedEnter(c, hp, FrameInfo(0, locals), [], ra).Ok? <==> locals <= MAX_LOCALS
    ensures locals > MAX_LOCALS ==> PagedEnter(c, hp, FrameInfo(0, locals), [], ra) == Err(Undefined)
  {
    hide CallWrites;
    ScopeFrameExact(0, c, locals, ra);
  }

  // ---------------------------------------------------------------- calls from inside calls

  /** The n cells below an address, where a frame is built. */
  predicate CellsInPages(sp: int, n: nat) {
    forall k | 1 <= k <= n :: InOnePage(sp - 8 * k, 8)
  }

  lemma {:induction false} ArgWritesCalm(dataStart: int, fp: int, args: seq<int>)
    requires dataStart <= fp
    ensures AllCalm(dataStart, ArgWrites(fp, args)) <==> forall j | 1 <= j <= |args| :: InOnePage(fp + 8 * j, 8)
    decreases |args|
  {
    hide InOnePage;
    if args != [] {
      var first := [WriteAt(fp + 8 * |args|, args[0], 8)];
      ArgWritesCalm(dataStart, fp, args[1..]);
      CalmConcat(dataStart, first, ArgWrites(fp, args[1..]));
      assert AllCalm(dataStart, first) <==> Calm(dataStart, first[0]);
    }
  }

  /** With d cells of frames above it, a call writes inside its pages if and only if none of its own cells is one
      of those that straddle. */
  lemma {:induction false} CallFrameExact(dataStart: int, c: CallState, info: FrameInfo, args: seq<int>, ra: int,
          d: nat)
    requires |args| == info.args && info.locals >= 0 && c.sp == MAX_ADDR - 8 * d
    requires 0 <= dataStart <= c.sp - FrameSize(info)
    ensures AllCalm(dataStart, CallWrites(c, info, args, ra)) <==> CellsInPages(c.sp, info.args + 1 + info.locals)
  {
    hide InOnePage, LocalWrites, ArgWrites, CellsInPages;
    var fp, sp := c.sp - (8 * info.args + 8), c.sp - FrameSize(info);
    var base := [WriteAt(fp, c.fp, 4), WriteAt(fp + 4, ra, 4)];
    ArgWritesCalm(dataStart, fp, args);
    LocalWritesCalm(dataStart, sp, info.locals);
    CalmConcat(dataStart, LocalWrites(sp, info.locals), base);
    CalmConcat(dataStart, ArgWrites(fp, args), LocalWrites(sp, info.locals) + base);
    assert AllCalm(dataStart, base) <==> Calm(dataStart, base[0]) && Calm(dataStart, base[1]);
    FrameCellStraddles(d + info.args + 1);
    assert fp == MAX_ADDR - 8 * (d + info.args + 1);
    CellsByPart(dataStart, c.sp, info.args, info.locals);
  }

  /** Cells of the arguments, the base and the locals. */
  lemma {:induction false} CellsByPart(dataStart: int, top: int, args: nat, locals: nat)
    requires dataStart <= top - 8 * (args + 1 + locals)
    ensures var fp, sp := top - (8 * args + 8), top - 8 * (args + 1 + locals);
      CellsInPages(top, args + 1 + locals) <==>
        && (forall j | 1 <= j <= args :: InOnePage(fp + 8 * j, 8))
        && InOnePage(fp, 8)
        && (forall k: nat | k < locals :: Calm(dataStart, WriteAt(sp + 8 * k, 0, 8)))
  {
    hide InOnePage;
    var fp, sp := top - (8 * args + 8), top - 8 * (args + 1 + locals);
    if CellsInPages(top, args + 1 + locals) {
      assert InOnePage(top - 8 * (args + 1), 8);
      forall j | 1 <= j <= args
        ensures InOnePage(fp + 8 * j, 8)
      {
        assert top - 8 * (args + 1 - j) == fp + 8 * j;
      }
      forall k: nat | k < locals
        ensures Calm(dataStart, WriteAt(sp + 8 * k, 0, 8))
      {
        assert top - 8 * (args + 1 + locals - k) == sp + 8 * k;
      }
    }
    if (forall j | 1 <= j <= args :: InOnePage(fp + 8 * j, 8)) && InOnePage(fp, 8)
       && (forall k: nat | k < locals :: Calm(dataStart, WriteAt(sp + 8 * k, 0, 8))) {
      forall k | 1 <= k <= args + 1 + locals
        ensures InOnePage(top - 8 * k, 8)
      {
        if k <= args {
          assert InOnePage(fp + 8 * (args + 1 - k), 8);
        } else if k > args + 1 {
          assert Calm(dataStart, WriteAt(sp + 8 * (args + 1 + locals - k), 0, 8));
        }
      }
    }
  }

  /** In numbers: a frame of n cells below d others stays in its pages if and only if no multiple of 512 is among
      d + 1 .. d + n. */
  lemma {:induction false} FrameInPagesExact(d: nat, n: nat)
    requires 8 * (d + n) <= MAX_ADDR
    ensures CellsInPages(MAX_ADDR - 8 * d, n) <==> d / 512 == (d + n) / 512
  {
    hide InOnePage;
    forall k | 1 <= k <= n
      ensures InOnePage(MAX_ADDR - 8 * d - 8 * k, 8) <==> (d + k) % 512 != 0
    {
      FrameCellStraddles(d + k);
      assert MAX_ADDR - 8 * d - 8 * k == MAX_ADDR - 8 * (d + k);
    }
    var k := NextMultiple(d, n);
    if 1 <= k <= n {
      assert (d + k) % 512 == 0;
      assert !InOnePage(MAX_ADDR - 8 * d - 8 * k, 8);
    } else {
      forall j | 1 <= j <= n
        ensures InOnePage(MAX_ADDR - 8 * d - 8 * j, 8)
      {
        BelowMultiple(d, k, j);
      }
    }
  }

  /** The distance to the next multiple of 512, which is at most n exactly when there is one in between. */
  lemma {:induction false} NextMultiple(d: nat, n: nat) returns (k: nat)
    ensures k >= 1 && (d + k) % 512 == 0 && (d + k) / 512 == d / 512 + 1
    ensures d / 512 == (d + n) / 512 <==> n < k
  {
    k := 512 - d % 512;
  }

  lemma {:induction false} BelowMultiple(d: nat, k: nat, j: nat)
    requires 1 <= j < k && (d + k) % 512 == 0 && (d + k) / 512 == d / 512 + 1
    ensures (d + j) % 512 != 0
  {
  }
}
