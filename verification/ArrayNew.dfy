/** `new T[e0]...[en]` as a whole: the lengths are evaluated from the last to the first, checked, and left on
    the operand stack for the allocation; afterwards only the array pointer remains. */
module ArrayNew {
  import opened Words
  import opened Isa
  import opened FlatMemory
  import opened Arithmetic
  import opened HeapRuns
  import MemoryRuns
  import opened Machine
  import opened Accesses
  import opened Source
  import opened Domain
  import opened CodeGen
  import opened ArrayCode
  import opened Cursor
  import opened Simulation
  import opened ExprSimulation
  import opened ArrayTrees
  import opened ArrayBuilding
  import opened ArrayAllocation
  import opened ArrayPages
  import opened Pages
  import Heap
  import ArrayIndexing
  import Program

  // ---------------------------------------------------------------- lengths

  /** The lengths in source order, evaluated from the last to the first; a negative one is an error. */
  function EvalLengths(es: seq<Expr>, st: Store): (r: Outcome<(seq<int>, Store)>)
    ensures r.Ok? ==> |r.value.0| == |es| && forall i | 0 <= i < |es| :: IsWord(r.value.0[i])
    decreases |es|
  {
    if es == [] then Ok(([], st))
    else
      var e := es[|es| - 1];
      match Eval(e, st)
      case Err(f) => Err(f)
      case Ok((w, st1)) =>
        if Negative(TypeOf(e), w) then Err(NegativeLength)
        else
          match EvalLengths(es[..|es| - 1], st1)
          case Err(f) => Err(f)
          case Ok((ds, st2)) => Ok((ds + [w], st2))
  }

  predicate Negative(ty: Type, w: int) {
    ty == TInt && Signed(w) < 0
  }

  /** The lengths as they lie on the stack: the first one on top. */
  function Pushed(ds: seq<nat>): (s: seq<Value>)
    ensures |s| == |ds|
  {
    if ds == [] then [] else [Value(UI32, ds[|ds| - 1])] + Pushed(ds[..|ds| - 1])
  }

  lemma {:induction false} PushedAt(ds: seq<nat>, j: nat)
    requires j < |ds|
    ensures Pushed(ds)[|ds| - 1 - j] == Value(UI32, ds[j])
    decreases |ds|
  {
    if j < |ds| - 1 {
      PushedAt(ds[..|ds| - 1], j);
    }
  }

  ghost predicate LengthsDone(im: Image, s: State, n: nat, t: State, u: State, end: int, fr: Frame,
          r: Outcome<(seq<int>, Store)>) {
    match r
    case Ok((ds, st)) =>
      && (forall i | 0 <= i < |ds| :: ds[i] >= 0)
      && u.status == Running && Reaches(im.code, s, n, u) && u.pc == end && u.stack == t.stack + Pushed(ds)
      && Represented(u, fr, st) && Keeps(t, u, fr)
    case Err(f) => Reaches(im.code, s, n, u) && u.status == Failed(f)
  }

  ghost predicate LengthsOk(es: seq<Expr>, fr: Frame, room: int) {
    forall i | 0 <= i < |es| :: ArrayIndexing.IndexOk(es[i], fr) && |es| + Max(Need(es[i]), 3) <= room
  }

  lemma {:induction false} CheckLoaded(im: Image, at: int, n: nat, ty: Type, end: int)
    requires Spans(im, at, LengthCheck(n, ty), end)
    ensures LengthValid(n) in im.labels && IsWord(im.labels[LengthValid(n)])
    ensures Spans(im, im.labels[LengthValid(n)], ConvIf(ty, TChar, Done), end)
  {
    hide Spans;
    var r4 := Def(LengthValid(n), ConvIf(ty, TChar, Done));
    var r3 := Ins(Throw(NegativeArrayLength), r4);
    var r2 := Ins(Jez(LengthValid(n)), r3);
    var r1 := Ins(Arith(CLT), r2);
    SpansIns(im, at, Dup(0), Ins(Push(AsmTy(ty), 0), r1), end);
    SpansIns(im, at + 3, Push(AsmTy(ty), 0), r1, end);
    SpansIns(im, at + 9, Arith(CLT), r2, end);
    SpansIns(im, at + 10, Jez(LengthValid(n)), r3, end);
    SpansIns(im, at + 15, Throw(NegativeArrayLength), r4, end);
    SpansDef(im, at + 17, LengthValid(n), ConvIf(ty, TChar, Done), end);
  }

  /** A negative length stops the machine, any other becomes an unsigned word. */
  lemma {:induction false} SimLengthCheck(im: Image, s: State, n: nat, t: State, k: nat, ty: Type, end: int,
          S: seq<Value>, v: Value, w: int)
    returns (u: State)
    requires At(im, s, n, t, LengthCheck(k, ty), end) && t.stack == S + [v] && |S| + 3 <= MAX_OPERANDS
    requires IsNumeric(ty) && IsWord(w) && Shows(v, ty, w, ty == TChar)
    ensures Reaches(im.code, s, n, u)
    ensures if Negative(ty, w) then u.status == Failed(NegativeLength)
            else u == t.(pc := end, stack := S + [Value(UI32, w)])
  {
    hide Run, Step, Reaches, Spans, Loaded, Length;
    CheckLoaded(im, t.pc, k, ty, end);
    var r4 := Def(LengthValid(k), ConvIf(ty, TChar, Done));
    var r3 := Ins(Throw(NegativeArrayLength), r4);
    var r2 := Ins(Jez(LengthValid(k)), r3);
    var r1 := Ins(Arith(CLT), r2);
    var t1 := DoDup(im, s, n, t, 0, Ins(Push(AsmTy(ty), 0), r1), end);
    assert t1.stack == t.stack + [v];
    var t2 := DoPush(im, s, n + 1, t1, AsmTy(ty), 0, r1, end);
    assert t2.stack == t.stack + [v, Value(AsmTy(ty), 0)];
    var t3 := DoArith(im, s, n + 2, t2, CLT, r2, end, t.stack, v, Value(AsmTy(ty), 0), Truth(Negative(ty, w)));
    var t4 := DoBranch(im, s, n + 3, t3, true, LengthValid(k), r3, end, t.stack, Truth(Negative(ty, w)));
    if Negative(ty, w) {
      DoIns(im, s, n + 4, t4, Throw(NegativeArrayLength), r4, end);
      u := Execute(im.code, After(t4, Throw(NegativeArrayLength)), Throw(NegativeArrayLength));
      ReachesWeaken(im.code, s, n + 5, n, u);
    } else {
      assert At(im, s, n + 4, t4, ConvIf(ty, TChar, Done), end);
      var r;
      u, r := DoConvIf(im, s, n + 4, t4, ty, TChar, Done, end, S, v, w, ty == TChar);
      AtEnd(im, s, n + 4, u, Done, end);
      ReachesWeaken(im.code, s, n + 4, n, u);
    }
  }

  lemma {:induction false} SimLengths(im: Image, s: State, n: nat, t: State, es: seq<Expr>, k: nat, end: int,
          fr: Frame, st: Store)
    returns (u: State)
    requires At(im, s, n, t, CodeLengths(es, k), end) && Represented(t, fr, st)
    requires LengthsOk(es, fr, MAX_OPERANDS - |t.stack|)
    ensures LengthsDone(im, s, n, t, u, end, fr, EvalLengths(es, st))
    decreases |es|
  {
    hide Run, Step, Execute, Reaches, Spans, Loaded, Length, Represented, Keeps, Read64, Get, LengthCheck, CodeExpr,
      ExprDone, Sound, WellTyped;
    if es == [] {
      u := t;
      AtEnd(im, s, n, u, Done, end);
      SameStore(t, u, fr, st);
      assert t.stack + Pushed([]) == t.stack;
    } else {
      var e := es[|es| - 1];
      assert ArrayIndexing.IndexOk(e, fr);
      var code, check := CodeExpr(e, k + 1), LengthCheck(k, TypeOf(e));
      var rest := CodeLengths(es[..|es| - 1], k + 1 + LabelsOf(e));
      SpansSeq(im, t.pc, code, Seq(check, rest), end);
      var mid := t.pc + Length(code);
      SpansSeq(im, mid, check, rest, end);
      var u1, v := SimExpr(im, s, n, t, e, k + 1, mid, fr, st);
      u := SimLengthsRest(im, s, n, t, u1, v, es, k, mid, end, fr, st);
    }
  }

  lemma {:induction false} SimLengthsRest(im: Image, s: State, n: nat, t: State, u1: State, v: Value, es: seq<Expr>,
          k: nat, mid: int, end: int, fr: Frame, st: Store)
    returns (u: State)
    requires es != [] && LengthsOk(es, fr, MAX_OPERANDS - |t.stack|)
    requires var e := es[|es| - 1];
      var check := LengthCheck(k, TypeOf(e));
      && ExprDone(im, s, n + 1, t, t.stack, u1, v, mid, fr, TypeOf(e), Clean(e, fr), Eval(e, st))
      && Spans(im, mid, check, mid + Length(check))
           && Spans(im, mid + Length(check), CodeLengths(es[..|es| - 1], k + 1 + LabelsOf(e)), end)
    ensures LengthsDone(im, s, n, t, u, end, fr, EvalLengths(es, st))
    decreases |es|, 0
  {
    hide Run, Step, Execute, Reaches, Spans, Loaded, Length, Represented, Keeps, Read64, Get, LengthCheck, CodeExpr,
      Sound, WellTyped, CodeLengths;
    var e, init := es[|es| - 1], es[..|es| - 1];
    assert ArrayIndexing.IndexOk(e, fr);
    u := u1;
    if Eval(e, st).Ok? {
      var (w, st1) := Eval(e, st).value;
      if TypeOf(e) == TChar {
        NonIntIsClean(e, fr);
      }
      var u2 := SimLengthCheck(im, s, n + 1, u1, k, TypeOf(e), mid + Length(LengthCheck(k, TypeOf(e))), t.stack, v, w);
      u := u2;
      ReachesWeaken(im.code, s, n + 1, n, u2);
      if !Negative(TypeOf(e), w) {
        SameStore(u1, u2, fr, st1);
        KeepsTrans(t, u1, u2, fr);
        u := SimLengths(im, s, n, u2, init, k + 1 + LabelsOf(e), end, fr, st1);
        LengthsBehind(im, s, n, t, u2, u, end, fr, es, w, st, st1);
      }
    } else {
      ReachesWeaken(im.code, s, n + 1, n, u);
    }
  }

  lemma {:induction false} LengthsBehind(im: Image, s: State, n: nat, t: State, u2: State, u: State, end: int,
          fr: Frame, es: seq<Expr>, w: int, st: Store, st1: Store)
    requires es != [] && Eval(es[|es| - 1], st) == Outcome.Ok((w, st1)) && !Negative(TypeOf(es[|es| - 1]), w)
    requires IsWord(w) && Keeps(t, u2, fr) && u2.stack == t.stack + [Value(UI32, w)]
    requires LengthsDone(im, s, n, u2, u, end, fr, EvalLengths(es[..|es| - 1], st1))
    ensures LengthsDone(im, s, n, t, u, end, fr, EvalLengths(es, st))
  {
    hide Run, Reaches, Represented, Keeps, Get;
    var r := EvalLengths(es[..|es| - 1], st1);
    if r.Ok? {
      var ds := r.value.0;
      KeepsTrans(t, u2, u, fr);
      assert (ds + [w])[..|ds|] == ds;
      assert t.stack + [Value(UI32, w)] + Pushed(ds) == t.stack + ([Value(UI32, w)] + Pushed(ds));
    }
  }

  // ---------------------------------------------------------------- the whole expression

  lemma {:induction false} SimPops(im: Image, s: State, n: nat, t: State, end: int, S: seq<Value>, D: seq<Value>)
    returns (u: State)
    requires At(im, s, n, t, Pops(|D|), end) && t.stack == S + D
    ensures u == t.(pc := end, stack := S) && Reaches(im.code, s, n, u)
    decreases |D|
  {
    hide Run, Step, Execute, Reaches, Loaded, Length;
    if D == [] {
      u := t;
      AtEnd(im, s, n, u, Done, end);
      assert t.stack == S;
    } else {
      var init, last := D[..|D| - 1], D[|D| - 1];
      assert t.stack == (S + init) + [last];
      var t1 := DoPop(im, s, n, t, Pops(|D| - 1), end, S + init, last);
      AtWeaken(im, s, n + 1, n, t1, Pops(|D| - 1), end);
      u := SimPops(im, s, n, t1, end, S, init);
    }
  }

  /** The lengths of the deeper levels disappear from below the pointer. */
  lemma {:induction false} SimCleanup(im: Image, s: State, n: nat, t: State, end: int, S: seq<Value>, D: seq<Value>,
          x: Value) returns (u: State)
    requires At(im, s, n, t, Cleanup(|D| + 1), end) && t.stack == S + D + [x] && |D| < MAX_LEVELS
    ensures u == t.(pc := end, stack := S + [x]) && Reaches(im.code, s, n, u)
  {
    hide Run, Step, Execute, Reaches, Loaded, Length, Pops;
    if D == [] {
      u := t;
      AtEnd(im, s, n, u, Done, end);
      assert t.stack == S + [x];
    } else {
      var t1;
      if |D| == 1 {
        assert t.stack == S + [D[0], x];
        t1 := DoSwap(im, s, n, t, Pops(1), end, S, D[0], x);
        assert t1.stack == S + [x] + D;
      } else {
        t1 := DoRotU(im, s, n, t, |D| + 1, Pops(|D|), end, S, D, x);
      }
      AtWeaken(im, s, n + 1, n, t1, Pops(|D|), end);
      u := SimPops(im, s, n, t1, end, S + [x], D);
    }
  }

  /** A sound and aligned heap between the data and the stack. */
  ghost predicate HeapReady(t: State, live: Blocks) {
    && HeapOk(t.HeapView(), live, t.hb) && t.hp < t.sp <= W32 && t.dataStart <= t.hb
    && FreeAligned(t.free) && BlocksInPages(live)
  }

  /** The heap of a program that has just started is ready if and only if it begins at a multiple of four. */
  lemma {:induction false} ReadyInitially(mem: Mem, dataStart: int, hb: int)
    requires 0 <= dataStart <= hb < MAX_ADDR
    ensures HeapReady(Program.Initial(mem, dataStart, hb), map[]) <==> hb % 4 == 0
  {
    HeapRuns.InitiallyOk(mem, hb);
    var free := Heap.InitialList(hb);
    assert free[0].addr == hb;
  }

  /** Frame slots lie above the heap, so evaluating lengths leaves it sound. */
  lemma {:induction false} HeapStays(t: State, u: State, fr: Frame, st: Store, live: Blocks)
    requires HeapReady(t, live) && Represented(t, fr, st) && Keeps(t, u, fr)
    ensures HeapReady(u, live) && u.sp == t.sp && u.hb == t.hb && u.free == t.free && u.hp == t.hp
  {
    hide HeapOk, Read64, Get;
    assert forall a | t.hb <= a < t.hp :: !InSlots(t, fr, a);
    MemoryRuns.HeapKept(t.HeapView(), u.mem, live, t.hb);
    assert u.HeapView() == t.HeapView().(mem := u.mem);
  }

  /** The frame keeps representing its store while arrays are built below SP. */
  lemma {:induction false} FrameStays(t: State, u: State, fr: Frame, st: Store, live: Blocks)
    requires Represented(t, fr, st) && u == t.(pc := u.pc, stack := u.stack, mem := u.mem, free := u.free, hp := u.hp)
    requires SameBut(t.mem, u.mem, live, 0, 0, t.sp)
    ensures Represented(u, fr, st)
  {
    hide Get, Read64, Live;
    forall j | SlotOk(j, fr)
      ensures Holds(Read64(u.mem, u.fp + 8 * j), j, Fetch(st, j), fr)
    {
      assert Holds(Read64(t.mem, t.fp + 8 * j), j, Fetch(st, j), fr);
      CellAbove(t.mem, u.mem, t.fp + 8 * j, t.sp);
    }
  }

  lemma {:induction false} CellAbove(m: Mem, m': Mem, p: int, top: int)
    requires (forall x | top <= x :: Get(m', x) == Get(m, x)) && top <= p
    ensures Read64(m', p) == Read64(m, p)
  {
  }

  /** What `new` leaves: one pointer on the operand stack, and the tree of its lengths in blocks of its own,
      all of which have room for their elements as long as the lengths fit. */
  ghost predicate NewDone(t: State, u: State, end: int, live: Blocks, live': Blocks, h: Heap.HeapState, a: Arr,
          ds: seq<int>, fr: Frame, st: Store)
    requires ds != []
  {
    && u.status == Running && u.pc == end && a.p >= 0 && u.stack == t.stack + [Value(PTR, a.p)]
    && u.hb == t.hb && u.sp == t.sp && u.free == h.free && u.hp == h.hp
    && Represented(u, fr, st) && HeapReady(u, live')
    && Grows(live, live') && live'.Keys == live.Keys + Headers(a) && Headers(a) !! live.Keys
    && Tree(u.mem, live', a, ds, Asked) && (LengthsFit(ds) ==> Tree(u.mem, live', a, ds, Full))
  }

  /** The machine has built the tree that Build describes, or has stopped for its fault. */
  ghost predicate NewOutcome(t: State, u: State, end: int, live: Blocks, live': Blocks,
          r: Outcome<(Heap.HeapState, Arr)>, ds: seq<int>, fr: Frame, st: Store)
    requires ds != []
  {
    match r
    case Ok((h, a)) => NewDone(t, u, end, live, live', h, a, ds, fr, st)
    case Err(f) => u.status.Failed? && (RowsFit(ds) ==> u.status == Failed(f)) && (LengthsFit(ds) ==> f == OutOfMemory)
  }

  /** `new T[e0]...[en]` raises what its lengths raise. Otherwise it fails exactly when the tree of those
      lengths cannot be built on the heap, by running out of memory when all lengths fit, and else leaves
      exactly that tree. */
  lemma {:induction false} SimNew(im: Image, s: State, n: nat, t: State, es: seq<Expr>, k: nat, end: int, fr: Frame,
          st: Store, live: Blocks)
    returns (u: State, live': Blocks)
    requires es != [] && |es| <= MAX_LEVELS && At(im, s, n, t, CodeNew(es, k), end) && Represented(t, fr, st)
    requires HeapReady(t, live)
    requires LengthsOk(es, fr, MAX_OPERANDS - |t.stack|) && |t.stack| + 4 * |es| <= MAX_OPERANDS
    ensures Reaches(im.code, s, n, u)
    ensures match EvalLengths(es, st)
            case Err(f) => u.status == Failed(f)
            case Ok((ds, st1)) => NewOutcome(t, u, end, live, live', Build(t.HeapView(), ds, t.sp), ds, fr, st1)
  {
    hide Run, Step, Execute, Reaches, Spans, Loaded, Length, Represented, Keeps, HeapReady, CodeLengths, CodeAlloc,
      Cleanup, EvalLengths, LengthsOk, NewOutcome, Build;
    live' := live;
    var lengths, alloc := CodeLengths(es, k), CodeAlloc(|es|, 0, k + LabelsOfLengths(es));
    SpansSeq(im, t.pc, lengths, Seq(alloc, Cleanup(|es|)), end);
    var mid := t.pc + Length(lengths);
    SpansSeq(im, mid, alloc, Cleanup(|es|), end);
    u := SimLengths(im, s, n, t, es, k, mid, fr, st);
    if EvalLengths(es, st).Ok? {
      var (ds, st1) := EvalLengths(es, st).value;
      var u1 := u;
      HeapStays(t, u1, fr, st, live);
      u, live' := SimBuild(im, s, n, t, u1, es, ds, k + LabelsOfLengths(es), mid + Length(alloc), end, fr, st1, live);
    }
  }

  lemma {:induction false} SimBuild(im: Image, s: State, n: nat, t: State, u1: State, es: seq<Expr>, ds: seq<nat>,
          k: nat, mid: int, end: int, fr: Frame, st: Store, live: Blocks)
    returns (u: State, live': Blocks)
    requires ds != [] && |ds| == |es| <= MAX_LEVELS && WordLengths(ds) && |t.stack| + 4 * |ds| <= MAX_OPERANDS
    requires u1.status == Running && Reaches(im.code, s, n, u1) && Spans(im, u1.pc, CodeAlloc(|es|, 0, k), mid)
    requires Spans(im, mid, Cleanup(|es|), end)
    requires u1.stack == t.stack + Pushed(ds) && Represented(u1, fr, st) && HeapReady(u1, live)
    requires u1.hb == t.hb && u1.sp == t.sp && u1.free == t.free && u1.hp == t.hp
    ensures Reaches(im.code, s, n, u) && NewOutcome(t, u, end, live, live', Build(t.HeapView(), ds, t.sp), ds, fr, st)
  {
    hide Run, Step, Execute, Reaches, Spans, Loaded, Length, Represented, Partition, CodeAlloc, Cleanup, Pushed, Build,
      SameBut, Tree, DimsBelow, Headers, Read32, LengthsFit, RowsFit, FreeAligned, InOnePage;
    var D := Pushed(ds)[..|ds| - 1];
    StackOfLengths(t.stack, ds);
    u := SimAlloc(im, s, n, u1, ds, 0, k, mid, t.stack + D, live);
    live' := live;
    BuildIgnoresMemory(t.HeapView(), u1.HeapView(), ds, t.sp);
    if Build(u1.HeapView(), ds, u1.sp).Ok? {
      var u2 := u;
      live' := BuildKeeps(u1.HeapView(), live, t.hb, ds, u1.sp);
      BuildAligned(u1.HeapView(), ds, u1.sp);
      var a := Build(u1.HeapView(), ds, u1.sp).value.1;
      FrameStays(u1, u2, fr, st, live);
      u := SimCleanup(im, s, n, u2, end, t.stack, D, Value(PTR, a.p));
      SameStore(u2, u, fr, st);
      assert u.HeapView() == u2.HeapView();
      if LengthsFit(ds) {
        FittingTreeIsFull(u.mem, live', a, ds);
      }
    } else if LengthsFit(ds) {
      BuildFault(u1.HeapView(), live, t.hb, ds, u1.sp);
    }
  }

  /** The stack of lengths as the allocation wants it. */
  lemma {:induction false} StackOfLengths(S: seq<Value>, ds: seq<nat>)
    requires ds != []
    ensures var D := Pushed(ds)[..|ds| - 1];
      S + Pushed(ds) == S + D + [Value(UI32, ds[0])] && DimsBelow(S + D, 0, ds)
  {
    hide Pushed;
    var P := Pushed(ds);
    var D := P[..|ds| - 1];
    PushedAt(ds, 0);
    assert P == D + [P[|ds| - 1]];
    var B := S + D;
    forall j | 1 <= j < |ds|
      ensures DimHeld(B, 0, ds, j)
    {
      PushedAt(ds, j);
    }
  }

  // ---------------------------------------------------------------- indexing what was built

  lemma {:induction false} RowAt(m: Mem, live: Blocks, p: int, i: int, rows: seq<Arr>, dims: seq<int>, room: Room,
          k: nat)
    requires |dims| > 1 && Rows(m, live, p, i, rows, dims, room) && k < |rows|
    ensures Read32(m, ElementAddress(p, i + k)) == rows[k].p && Tree(m, live, rows[k], dims[1..], room)
    decreases |rows|
  {
    hide Read32;
    if k > 0 {
      RowAt(m, live, p, i + 1, rows[1..], dims, room, k - 1);
    }
  }

  /** A tree of full blocks is an array that index chains of up to its depth may walk. */
  lemma {:induction false} TreeIsArray(m: Mem, live: Blocks, a: Arr, dims: seq<int>)
    requires dims != [] && Tree(m, live, a, dims, Full)
    ensures ArrayIndexing.ArrayAt(m, live, a.p, |dims|)
    decreases |dims|
  {
    hide Read32;
    if |dims| > 1 {
      forall i | 0 <= i < Read32(m, a.p)
        ensures ArrayIndexing.ArrayAt(m, live, Read32(m, ElementAddress(a.p, i)), |dims| - 1)
      {
        RowAt(m, live, a.p, 0, a.rows, dims, Full, i);
        TreeIsArray(m, live, a.rows[i], dims[1..]);
      }
    }
  }

  /** Every chain of indices within the lengths given to `new` reaches an element of a full tree, and the
      element is zero. */
  lemma {:induction false} FreshElementIsZero(m: Mem, live: Blocks, a: Arr, dims: seq<int>, es: seq<Expr>, st: Store)
    requires dims != [] && |es| == |dims| && Tree(m, live, a, dims, Full) && ArrayIndexing.Walk(m, a.p, es, st).Ok?
    ensures Read32(m, ArrayIndexing.Walk(m, a.p, es, st).value.0) == 0
    decreases |dims|
  {
    hide Read32;
    var (w, st1) := Eval(es[0], st).value;
    if |dims| > 1 {
      RowAt(m, live, a.p, 0, a.rows, dims, Full, w);
      FreshElementIsZero(m, live, a.rows[w], dims[1..], es[1..], st1);
    } else {
      assert ElementAddress(a.p, w) + 4 <= a.p - HEADER + live[a.p - HEADER];
    }
  }
}
