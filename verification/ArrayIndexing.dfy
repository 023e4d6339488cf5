/** Indexing arrays: what the code of an index chain computes, and that it stays inside the blocks. */
module ArrayIndexing {
  import opened Words
  import opened Isa
  import opened FlatMemory
  import opened Arithmetic
  import Heap
  import opened HeapRuns
  import opened Machine
  import opened Accesses
  import opened Source
  import opened SourceLaws
  import opened Domain
  import opened CodeGen
  import opened ArrayCode
  import opened Cursor
  import opened Simulation
  import opened ExprSimulation
  import opened Pages
  import opened ArrayPages

  const HEADER := Heap.HEADER

  // ---------------------------------------------------------------- arrays in memory

  /** The array whose pointer is p: its length in the first word, its elements behind it, all in one live
      block, and the same for its elements down to the given depth. */
  ghost predicate ArrayAt(m: Mem, live: Blocks, p: int, depth: nat)
    decreases depth
  {
    && p - HEADER in live && live[p - HEADER] == HEADER + 4 + ELEMENT * Read32(m, p)
    && (depth > 1 ==> forall i | 0 <= i < Read32(m, p) :: ArrayAt(m, live, Read32(m, ElementAddress(p, i)), depth - 1))
  }

  /** A word of an index expression names an element: not negative at its type, and below the length. */
  predicate InBounds(ty: Type, w: int, length: int) {
    (ty == TInt ==> Signed(w) >= 0) && w < length
  }

  /** The address an index chain reaches. Indices are evaluated from the outermost on; each one is checked
      before the next is evaluated. */
  function Walk(m: Mem, p: int, es: seq<Expr>, st: Store): (r: Outcome<(int, Store)>)
    requires es != []
    decreases |es|
  {
    match Eval(es[0], st)
    case Err(f) => Err(f)
    case Ok((w, st1)) =>
      if !InBounds(TypeOf(es[0]), w, Read32(m, p)) then Err(IndexOutOfRange)
      else
        var a := ElementAddress(p, w);
        if |es| == 1 then Ok((a, st1)) else Walk(m, Read32(m, a), es[1..], st1)
  }

  /** The four bytes at an address are a word of the payload of a live block, behind its length word. */
  ghost predicate InsideBlock(live: Blocks, a: int) {
    exists b | b in live :: WordInBlock(live, b, a)
  }

  predicate WordInBlock(live: Blocks, b: int, a: int)
    requires b in live
  {
    b + HEADER + 4 <= a && a + 4 <= b + live[b] && Aligned(a - b)
  }

  lemma {:induction false} InsideInPages(live: Blocks, a: int)
    requires InsideBlock(live, a) && BlocksInPages(live)
    ensures InOnePage(a, 4)
  {
    var b :| b in live && WordInBlock(live, b, a);
    WordInPages(b, live[b], (a - b) / 4);
  }

  lemma {:induction false} LengthInPages(m: Mem, live: Blocks, p: int, depth: nat)
    requires ArrayAt(m, live, p, depth) && BlocksInPages(live)
    ensures InOnePage(p, 4)
  {
    hide Read32;
    WordInPages(p - HEADER, live[p - HEADER], 1);
  }

  /** A chain that is not stopped ends at an element of the array it has reached. */
  lemma {:induction false} WalkStaysInside(m: Mem, live: Blocks, p: int, es: seq<Expr>, st: Store)
    requires es != [] && ArrayAt(m, live, p, |es|) && Walk(m, p, es, st).Ok?
    ensures InsideBlock(live, Walk(m, p, es, st).value.0)
    decreases |es|
  {
    hide Read32;
    var (w, st1) := Eval(es[0], st).value;
    if |es| == 1 {
      assert WordInBlock(live, p - HEADER, ElementAddress(p, w));
    } else {
      WalkStaysInside(m, live, Read32(m, ElementAddress(p, w)), es[1..], st1);
    }
  }

  /** It is stopped exactly by an index that is negative or not below the length of its array, when the
      indices themselves evaluate. */
  ghost predicate SomeIndexOut(m: Mem, p: int, es: seq<Expr>, st: Store)
    requires es != []
    decreases |es|
  {
    Eval(es[0], st).Ok? &&
    var (w, st1) := Eval(es[0], st).value;
    !InBounds(TypeOf(es[0]), w, Read32(m, p))
    || (|es| > 1 && SomeIndexOut(m, Read32(m, ElementAddress(p, w)), es[1..], st1))
  }

  lemma {:induction false} IndexErrorExact(m: Mem, p: int, es: seq<Expr>, st: Store)
    requires es != []
    ensures Walk(m, p, es, st) == Outcome.Err(IndexOutOfRange) <==> SomeIndexOut(m, p, es, st)
    decreases |es|
  {
    hide Eval, Read32;
    if Eval(es[0], st).Err? {
      EvalFaults(es[0], st);
    } else if |es| > 1 {
      var (w, st1) := Eval(es[0], st).value;
      IndexErrorExact(m, Read32(m, ElementAddress(p, w)), es[1..], st1);
    }
  }

  // ---------------------------------------------------------------- the address computation

  lemma {:induction false} SimAddress(im: Image, s: State, n: nat, t: State, end: int, S: seq<Value>, p: nat, len: nat,
          w: nat)
    returns (u: State)
    requires |S| + 3 <= MAX_OPERANDS && w < len && ElementAddress(p, len) < W32
    requires At(im, s, n, t, IndexAddress, end) && t.stack == S + [Value(PTR, p), Value(UI32, len), Value(UI32, w)]
    ensures u == t.(pc := end, stack := S + [Value(PTR, ElementAddress(p, w))]) && Reaches(im.code, s, n, u)
  {
    hide Run, Step, Execute, Reaches, Loaded, Length;
    var P, X, L := Value(PTR, p), Value(UI32, w), Value(UI32, len);
    assert t.stack == (S + [P]) + [L, X];
    var rest6 := Ins(Arith(ADD), Done);
    var rest5 := Ins(Arith(ADD), rest6);
    var rest4 := Ins(Push(UI32, 4), rest5);
    var rest3 := Ins(Arith(MUL), rest4);
    var rest2 := Ins(Push(UI32, ELEMENT), rest3);
    var t1 := DoSwap(im, s, n, t, Ins(Pop, rest2), end, S + [P], L, X);
    assert t1.stack == (S + [P, X]) + [L];
    var t2 := DoPop(im, s, n + 1, t1, rest2, end, S + [P, X], L);
    var t3 := DoPush(im, s, n + 2, t2, UI32, ELEMENT, rest3, end);
    assert t3.stack == (S + [P]) + [X, Value(UI32, ELEMENT)];
    Products(w, p, len);
    var t4 := DoArith(im, s, n + 3, t3, MUL, rest4, end, S + [P], X, Value(UI32, ELEMENT), Value(UI32, ELEMENT * w));
    var t5 := DoPush(im, s, n + 4, t4, UI32, 4, rest5, end);
    assert t5.stack == (S + [P]) + [Value(UI32, ELEMENT * w), Value(UI32, 4)];
    var t6 := DoArith(im, s, n + 5, t5, ADD, rest6, end, S + [P], Value(UI32, ELEMENT * w), Value(UI32, 4),
      Value(UI32, ELEMENT * w + 4));
    assert t6.stack == S + [P, Value(UI32, ELEMENT * w + 4)];
    u := DoArith(im, s, n + 6, t6, ADD, Done, end, S, P, Value(UI32, ELEMENT * w + 4),
      Value(PTR, ElementAddress(p, w)));
    AtEnd(im, s, n + 7, u, Done, end);
    ReachesWeaken(im.code, s, n + 7, n, u);
  }

  lemma {:induction false} Products(w: int, p: int, len: int)
    requires 0 <= w < len && 0 <= p && ElementAddress(p, len) < W32
    ensures Apply(MUL, Value(UI32, w), Value(UI32, ELEMENT)) == Outcome.Ok(Value(UI32, ELEMENT * w))
    ensures Apply(ADD, Value(UI32, ELEMENT * w), Value(UI32, 4)) == Outcome.Ok(Value(UI32, ELEMENT * w + 4))
    ensures Apply(ADD, Value(PTR, p), Value(UI32, ELEMENT * w + 4)) == Outcome.Ok(Value(PTR, ElementAddress(p, w)))
  {
    hide Apply;
    UnsignedQuadruple(w);
    UnsignedSum(ELEMENT * w, 4);
    UnsignedSum(p, ELEMENT * w + 4);
  }

  // ---------------------------------------------------------------- the range check

  /** Where the labels of the check are. */
  ghost predicate LandingLoaded(im: Image, out: Label, inside: Label, end: int) {
    && out in im.labels && IsWord(im.labels[out])
         && Spans(im, im.labels[out], Ins(Throw(ArrayIndexOutOfRange), Def(inside, IndexAddress)), end)
    && inside in im.labels && IsWord(im.labels[inside]) && Spans(im, im.labels[inside], IndexAddress, end)
  }

  lemma {:induction false} LandingIs(im: Image, at: int, out: Label, inside: Label, end: int)
    requires Spans(im, at, Landing(out, inside), end)
    ensures LandingLoaded(im, out, inside, end)
  {
    hide Spans, Size;
    var rest := Def(inside, IndexAddress);
    SpansDef(im, at, out, Ins(Throw(ArrayIndexOutOfRange), rest), end);
    SpansIns(im, at, Throw(ArrayIndexOutOfRange), rest, end);
    SpansDef(im, at + Size<Label>(Throw(ArrayIndexOutOfRange)), inside, IndexAddress, end);
  }

  lemma {:induction false} UpperLoaded(im: Image, at: int, out: Label, inside: Label, end: int)
    requires Spans(im, at, CheckUpper(out, inside), end)
    ensures LandingLoaded(im, out, inside, end)
  {
    hide Spans, LandingLoaded, Landing;
    var r5 := Landing(out, inside);
    var r4 := Ins(Jmp(inside), r5);
    var r3 := Ins(Jnz(out), r4);
    var r2 := Ins(Arith(CLE), r3);
    var r1 := Ins(Dup(1), r2);
    SpansIns(im, at, Dup(1), r1, end);
    SpansIns(im, at + 3, Dup(1), r2, end);
    SpansIns(im, at + 6, Arith(CLE), r3, end);
    SpansIns(im, at + 7, Jnz(out), r4, end);
    SpansIns(im, at + 12, Jmp(inside), r5, end);
    LandingIs(im, at + 17, out, inside, end);
  }

  lemma {:induction false} CheckLoaded(im: Image, at: int, out: Label, inside: Label, ty: Type, end: int)
    requires Spans(im, at, CheckIndex(out, inside, ty), end)
    ensures LandingLoaded(im, out, inside, end)
  {
    hide Spans, LandingLoaded, CheckUpper;
    var upper := CheckUpper(out, inside);
    var r3 := ConvIf(ty, TChar, upper);
    var r2 := Ins(Jnz(out), r3);
    var r1 := Ins(Arith(CLT), r2);
    var r0 := Ins(Push(AsmTy(ty), 0), r1);
    SpansIns(im, at, Dup(0), r0, end);
    SpansIns(im, at + 3, Push(AsmTy(ty), 0), r1, end);
    SpansIns(im, at + 9, Arith(CLT), r2, end);
    SpansIns(im, at + 10, Jnz(out), r3, end);
    if AsmTy(ty) != AsmTy(TChar) {
      SpansIns(im, at + 15, Conv(UI32), upper, end);
      UpperLoaded(im, at + 17, out, inside, end);
    } else {
      UpperLoaded(im, at + 15, out, inside, end);
    }
  }

  predicate LabelLoaded(im: Image, l: Label) {
    l in im.labels && IsWord(im.labels[l])
  }

  lemma {:induction false} DoIndexError(im: Image, s: State, n: nat, t: State, out: Label, inside: Label, end: int,
          S: seq<Value>, L: Value, X: Value)
    returns (u: State)
    requires LandingLoaded(im, out, inside, end) && t.status == Running && Reaches(im.code, s, n, t)
    requires LabelLoaded(im, out) && t.pc == im.labels[out]
    requires t.stack == S + [L, X] && L.ty == UI32 && IsInteger(X.ty)
    ensures Reaches(im.code, s, n, u) && u.status == Failed(IndexOutOfRange)
  {
    hide Run, Loaded;
    DoIns(im, s, n, t, Throw(ArrayIndexOutOfRange), Def(inside, IndexAddress), end);
    u := Execute(im.code, After(t, Throw(ArrayIndexOutOfRange)), Throw(ArrayIndexOutOfRange));
    ReachesWeaken(im.code, s, n + 1, n, u);
  }

  /** The check on a converted index: below the length, or an error. */
  lemma {:induction false} SimUpper(im: Image, s: State, n: nat, t: State, out: Label, inside: Label, end: int,
          S: seq<Value>, p: nat, len: nat, w: nat)
    returns (u: State)
    requires At(im, s, n, t, CheckUpper(out, inside), end) && LandingLoaded(im, out, inside, end)
    requires t.stack == S + [Value(PTR, p), Value(UI32, len), Value(UI32, w)]
    requires |S| + 5 <= MAX_OPERANDS && ElementAddress(p, len) < W32
    ensures Reaches(im.code, s, n, u)
    ensures w < len ==> u == t.(pc := end, stack := S + [Value(PTR, ElementAddress(p, w))])
    ensures w >= len ==> u.status == Failed(IndexOutOfRange)
  {
    hide Run, Step, Execute, Reaches, Spans, Loaded, Length, Landing;
    var P, L, X := Value(PTR, p), Value(UI32, len), Value(UI32, w);
    var r4 := Ins(Jmp(inside), Landing(out, inside));
    var r3 := Ins(Jnz(out), r4);
    var r2 := Ins(Arith(CLE), r3);
    var r1 := Ins(Dup(1), r2);
    var t1 := DoDup(im, s, n, t, 1, r1, end);
    assert t1.stack == t.stack + [L];
    var t2 := DoDup(im, s, n + 1, t1, 1, r2, end);
    assert t2.stack == t.stack + [L, X];
    var t3 := DoArith(im, s, n + 2, t2, CLE, r3, end, t.stack, L, X, Truth(len <= w));
    var t4 := DoBranch(im, s, n + 3, t3, false, out, r4, end, t.stack, Truth(len <= w));
    if len <= w {
      assert t4.stack == (S + [P]) + [L, X];
      u := DoIndexError(im, s, n + 4, t4, out, inside, end, S + [P], L, X);
      ReachesWeaken(im.code, s, n + 4, n, u);
    } else {
      var t5 := DoJmp(im, s, n + 4, t4, inside, Landing(out, inside), end);
      assert At(im, s, n + 5, t5, IndexAddress, end);
      u := SimAddress(im, s, n + 5, t5, end, S, p, len, w);
      ReachesWeaken(im.code, s, n + 5, n, u);
    }
  }

  /** The whole check on the value of an index expression. */
  lemma {:induction false} SimCheck(im: Image, s: State, n: nat, t: State, out: Label, inside: Label, ty: Type,
          end: int, S: seq<Value>, p: nat, len: nat, v: Value, w: int)
    returns (u: State)
    requires At(im, s, n, t, CheckIndex(out, inside, ty), end) && t.stack == S + [Value(PTR, p), Value(UI32, len), v]
    requires IsNumeric(ty) && IsWord(w) && Shows(v, ty, w, ty == TChar)
    requires |S| + 5 <= MAX_OPERANDS && ElementAddress(p, len) < W32
    ensures Reaches(im.code, s, n, u)
    ensures InBounds(ty, w, len) ==> u == t.(pc := end, stack := S + [Value(PTR, ElementAddress(p, w))])
    ensures !InBounds(ty, w, len) ==> u.status == Failed(IndexOutOfRange)
  {
    hide Run, Step, Execute, Reaches, Spans, Loaded, Length, CheckUpper, LandingLoaded;
    var P, L := Value(PTR, p), Value(UI32, len);
    CheckLoaded(im, t.pc, out, inside, ty, end);
    var upper := CheckUpper(out, inside);
    var r3 := ConvIf(ty, TChar, upper);
    var r2 := Ins(Jnz(out), r3);
    var r1 := Ins(Arith(CLT), r2);
    var r0 := Ins(Push(AsmTy(ty), 0), r1);
    var neg := ty == TInt && Signed(w) < 0;
    var t1 := DoDup(im, s, n, t, 0, r0, end);
    assert t1.stack == t.stack + [v];
    var t2 := DoPush(im, s, n + 1, t1, AsmTy(ty), 0, r1, end);
    assert t2.stack == t.stack + [v, Value(AsmTy(ty), 0)];
    var t3 := DoArith(im, s, n + 2, t2, CLT, r2, end, t.stack, v, Value(AsmTy(ty), 0), Truth(neg));
    assert LabelLoaded(im, out) by { LabelOf(im, out, inside, end); }
    var t4 := DoBranch(im, s, n + 3, t3, false, out, r3, end, t.stack, Truth(neg));
    if neg {
      assert t4.stack == (S + [P]) + [L, v];
      u := DoIndexError(im, s, n + 4, t4, out, inside, end, S + [P], L, v);
      ReachesWeaken(im.code, s, n + 4, n, u);
    } else {
      assert t4.stack == (S + [P, L]) + [v];
      var t5, r := DoConvIf(im, s, n + 4, t4, ty, TChar, upper, end, S + [P, L], v, w, ty == TChar);
      assert r == Value(UI32, w) && t5.stack == S + [P, L, r];
      u := SimUpper(im, s, n + 4, t5, out, inside, end, S, p, len, w);
      ReachesWeaken(im.code, s, n + 4, n, u);
    }
  }

  lemma {:induction false} LabelOf(im: Image, out: Label, inside: Label, end: int)
    requires LandingLoaded(im, out, inside, end)
    ensures LabelLoaded(im, out)
  {
  }

  // ---------------------------------------------------------------- one index

  /** The heap of a state: live blocks between the heap base and HP whose words stay in their pages, and HP below
      the call stack. */
  ghost predicate HeapBelow(t: State, live: Blocks) {
    && 0 <= t.hb && t.dataStart <= t.hb && t.hp < t.sp && (forall a | a in live :: t.hb <= a && a + live[a] <= t.hp)
    && BlocksInPages(live)
  }

  /** The element address is on the stack instead of the array, and the frame represents the store. */
  ghost predicate AddressDone(im: Image, s: State, n: nat, t: State, S: seq<Value>, u: State, end: int, fr: Frame,
          r: Outcome<(int, Store)>) {
    match r
    case Ok((a, st)) =>
      && u.status == Running && Reaches(im.code, s, n, u)
      && a >= 0 && u.pc == end && u.stack == S + [Value(PTR, a)]
      && Represented(u, fr, st) && Keeps(t, u, fr)
    case Err(f) => Reaches(im.code, s, n, u) && u.status == Failed(f)
  }

  function IndexOnce(m: Mem, p: int, e: Expr, st: Store): Outcome<(int, Store)> {
    match Eval(e, st)
    case Err(f) => Err(f)
    case Ok((w, st1)) => if InBounds(TypeOf(e), w, Read32(m, p)) then Ok((ElementAddress(p, w), st1))
                         else Err(IndexOutOfRange)
  }

  predicate IndexOk(e: Expr, fr: Frame) {
    WellTyped(e, fr) && Sound(e, fr) && IsNumeric(TypeOf(e))
  }

  lemma {:induction false} SimIndex(im: Image, s: State, n: nat, t: State, e: Expr, k: nat, end: int, S: seq<Value>,
          p: nat, fr: Frame, st: Store)
    returns (u: State)
    requires At(im, s, n, t, CodeIndex(e, k), end) && t.stack == S + [Value(PTR, p)]
    requires IndexOk(e, fr) && Represented(t, fr, st) && |S| + 2 + Max(Need(e), 3) <= MAX_OPERANDS
    requires 0 <= t.hb <= p && ElementAddress(p, Read32(t.mem, p)) <= t.hp < t.sp && InOnePage(p, 4)
    ensures AddressDone(im, s, n, t, S, u, end, fr, IndexOnce(t.mem, p, e, st))
  {
    hide Run, Step, Execute, Reaches, Spans, Loaded, Length, CheckIndex, Represented, Keeps, Read32, Get, Need, Sound,
      WellTyped, CodeExpr, ExprDone;
    var P, ty, len := Value(PTR, p), TypeOf(e), Read32(t.mem, p);
    var check := CheckIndex(IndexOut(k), IndexInside(k), ty);
    var code := CodeExpr(e, k + 2);
    StateBound(t, fr, st);
    var t1 := DoDup(im, s, n, t, 0, Ins(Load(UI32), Seq(code, check)), end);
    assert t1.stack == t.stack + [P];
    var t2 := DoLoad(im, s, n + 1, t1, UI32, Seq(code, check), end, t.stack, P);
    var L := Value(UI32, len);
    assert t2.stack == S + [P, L];
    SameStore(t, t2, fr, st);
    SpansSeq(im, t2.pc, code, check, end);
    var u1, v := SimExpr(im, s, n + 2, t2, e, k + 2, t2.pc + Length(code), fr, st);
    u := SimIndexed(im, s, n + 3, t, t2, u1, v, e, check, k, end, S, p, len, fr, st);
    WeakenAddress(im, s, n + 3, n, t, S, u, end, fr, IndexOnce(t.mem, p, e, st));
  }

  lemma {:induction false} StateBound(t: State, fr: Frame, st: Store)
    requires Represented(t, fr, st)
    ensures 0 <= t.sp <= W32
  {
  }

  lemma {:induction false} WeakenAddress(im: Image, s: State, m: nat, n: nat, t: State, S: seq<Value>, u: State,
          end: int, fr: Frame, r: Outcome<(int, Store)>)
    requires AddressDone(im, s, m, t, S, u, end, fr, r) && n <= m
    ensures AddressDone(im, s, n, t, S, u, end, fr, r)
  {
    ReachesWeaken(im.code, s, m, n, u);
  }

  /** The part behind the index expression. */
  lemma {:induction false} SimIndexed(im: Image, s: State, n: nat, t: State, t2: State, u1: State, v: Value, e: Expr,
          check: Asm, k: nat, end: int, S: seq<Value>, p: nat, len: nat, fr: Frame, st: Store)
    returns (u: State)
    requires check == CheckIndex(IndexOut(k), IndexInside(k), TypeOf(e)) && len == Read32(t.mem, p)
    requires t2.stack == S + [Value(PTR, p), Value(UI32, len)] && Keeps(t, t2, fr)
    requires exists mid ::
      ExprDone(im, s, n, t2, t2.stack, u1, v, mid, fr, TypeOf(e), Clean(e, fr), Eval(e, st))
        && Spans(im, mid, check, end)
    requires IndexOk(e, fr) && |S| + 5 <= MAX_OPERANDS && ElementAddress(p, len) < W32
    ensures AddressDone(im, s, n, t, S, u, end, fr, IndexOnce(t.mem, p, e, st))
  {
    hide Run, Step, Execute, Reaches, Spans, Loaded, Length, CheckIndex, Represented, Keeps, Read32, Get, Need, Sound,
      WellTyped;
    u := u1;
    if Eval(e, st).Ok? {
      var (w, st1) := Eval(e, st).value;
      if TypeOf(e) == TChar {
        NonIntIsClean(e, fr);
      }
      assert u1.stack == S + [Value(PTR, p), Value(UI32, len), v];
      u := SimCheck(im, s, n, u1, IndexOut(k), IndexInside(k), TypeOf(e), end, S, p, len, v, w);
      if InBounds(TypeOf(e), w, len) {
        SameStore(u1, u, fr, st1);
        KeepsTrans(t, t2, u1, fr);
        KeepsTrans(t, u1, u, fr);
      }
    }
  }

  // ---------------------------------------------------------------- the chain

  /** Indices read the heap only, which running index expressions leaves alone. */
  lemma {:induction false} HeapReads(t: State, u: State, fr: Frame, live: Blocks, b: int, a: int)
    requires HeapBelow(t, live) && Keeps(t, u, fr) && FrameOk(t, fr) && b in live && b <= a && a + 4 <= b + live[b]
    ensures Read32(u.mem, a) == Read32(t.mem, a)
  {
    assert forall x | a <= x < a + 4 :: !InSlots(t, fr, x);
  }

  lemma {:induction false} ArrayKept(t: State, u: State, fr: Frame, live: Blocks, p: int, depth: nat)
    requires HeapBelow(t, live) && Keeps(t, u, fr) && FrameOk(t, fr) && ArrayAt(t.mem, live, p, depth)
    ensures ArrayAt(u.mem, live, p, depth) && Read32(u.mem, p) == Read32(t.mem, p)
    decreases depth
  {
    hide Read32, Get, Keeps, FrameOk;
    HeapReads(t, u, fr, live, p - HEADER, p);
    if depth > 1 {
      forall i | 0 <= i < Read32(t.mem, p)
        ensures ArrayAt(u.mem, live, Read32(u.mem, ElementAddress(p, i)), depth - 1)
      {
        HeapReads(t, u, fr, live, p - HEADER, ElementAddress(p, i));
        ArrayKept(t, u, fr, live, Read32(t.mem, ElementAddress(p, i)), depth - 1);
      }
    }
  }

  lemma {:induction false} WalkKept(t: State, u: State, fr: Frame, live: Blocks, p: int, es: seq<Expr>, st: Store)
    requires HeapBelow(t, live) && Keeps(t, u, fr) && FrameOk(t, fr) && es != [] && ArrayAt(t.mem, live, p, |es|)
    ensures Walk(u.mem, p, es, st) == Walk(t.mem, p, es, st)
    decreases |es|
  {
    hide Read32, Get, Keeps, FrameOk;
    HeapReads(t, u, fr, live, p - HEADER, p);
    if Eval(es[0], st).Ok? && |es| > 1 {
      var (w, st1) := Eval(es[0], st).value;
      if InBounds(TypeOf(es[0]), w, Read32(t.mem, p)) {
        HeapReads(t, u, fr, live, p - HEADER, ElementAddress(p, w));
        WalkKept(t, u, fr, live, Read32(t.mem, ElementAddress(p, w)), es[1..], st1);
      }
    }
  }

  ghost predicate IndicesOk(es: seq<Expr>, fr: Frame, room: int) {
    forall i | 0 <= i < |es| :: IndexOk(es[i], fr) && 2 + Max(Need(es[i]), 3) <= room
  }

  /** Running the code of an index chain on a well-formed array ends as the walk does: with the address of
      the element it reaches, or with the error of the first index that has one. */
  lemma {:induction false} SimIndices(im: Image, s: State, n: nat, t: State, es: seq<Expr>, k: nat, end: int,
          S: seq<Value>, p: nat, fr: Frame, st: Store, live: Blocks)
    returns (u: State)
    requires es != [] && At(im, s, n, t, CodeIndices(es, k), end) && t.stack == S + [Value(PTR, p)]
    requires IndicesOk(es, fr, MAX_OPERANDS - |S|) && Represented(t, fr, st)
    requires HeapBelow(t, live) && ArrayAt(t.mem, live, p, |es|)
    ensures AddressDone(im, s, n, t, S, u, end, fr, Walk(t.mem, p, es, st))
    decreases |es|
  {
    hide Run, Step, Execute, Reaches, Spans, Loaded, Length, CodeIndex, Represented, Keeps, Read32, Get, Need, IndexOk,
      AddressDone;
    var e := es[0];
    LengthInPages(t.mem, live, p, |es|);
    if |es| == 1 {
      u := SimIndex(im, s, n, t, e, k, end, S, p, fr, st);
    } else {
      var first, rest := CodeIndex(e, k), CodeIndices(es[1..], k + 2 + LabelsOf(e));
      SpansSeq(im, t.pc, first, Ins(Load(PTR), rest), end);
      var u1 := SimIndex(im, s, n, t, e, k, t.pc + Length(first), S, p, fr, st);
      u := SimRest(im, s, n, t, u1, t.pc + Length(first), es, k + 2 + LabelsOf(e), end, S, p, fr, st, live);
    }
  }

  lemma {:induction false} SimRest(im: Image, s: State, n: nat, t: State, u1: State, mid: int, es: seq<Expr>, k: nat,
          end: int, S: seq<Value>, p: nat, fr: Frame, st: Store, live: Blocks)
    returns (u: State)
    requires |es| > 1 && AddressDone(im, s, n, t, S, u1, mid, fr, IndexOnce(t.mem, p, es[0], st))
    requires Spans(im, mid, Ins(Load(PTR), CodeIndices(es[1..], k)), end)
    requires IndicesOk(es, fr, MAX_OPERANDS - |S|) && Represented(t, fr, st)
    requires HeapBelow(t, live) && ArrayAt(t.mem, live, p, |es|)
    ensures AddressDone(im, s, n, t, S, u, end, fr, Walk(t.mem, p, es, st))
    decreases |es|, 0
  {
    hide Run, Step, Execute, Reaches, Spans, Loaded, Length, CodeIndex, Represented, Keeps, Read32, Get, Need, IndexOk,
      FrameOk;
    u := u1;
    if IndexOnce(t.mem, p, es[0], st).Ok? {
      var (a, st1) := IndexOnce(t.mem, p, es[0], st).value;
      StateBound(t, fr, st);
      KeptRegisters(t, u1, fr, st);
      WordInPages(p - HEADER, live[p - HEADER], (a - p + HEADER) / 4);
      var t1 := DoLoad(im, s, n, u1, PTR, CodeIndices(es[1..], k), end, S, Value(PTR, a));
      HeapReads(t, u1, fr, live, p - HEADER, a);
      var q := Read32(t.mem, a);
      SameStore(u1, t1, fr, st1);
      KeepsTrans(t, u1, t1, fr);
      ArrayKept(t, t1, fr, live, q, |es| - 1);
      KeptRegisters(t, t1, fr, st);
      u := SimIndices(im, s, n + 1, t1, es[1..], k, end, S, q, fr, st1, live);
      WalkKept(t, t1, fr, live, q, es[1..], st1);
      AddressBehind(im, s, n + 1, n, t, t1, S, u, end, fr, Walk(t.mem, q, es[1..], st1));
    }
  }

  lemma {:induction false} KeptRegisters(t: State, u: State, fr: Frame, st: Store)
    requires Keeps(t, u, fr) && Represented(t, fr, st)
    ensures u.hb == t.hb && u.hp == t.hp && u.sp == t.sp && u.fp == t.fp && FrameOk(t, fr)
  {
  }

  lemma {:induction false} AddressBehind(im: Image, s: State, m: nat, n: nat, t: State, t1: State, S: seq<Value>,
          u: State, end: int, fr: Frame, r: Outcome<(int, Store)>)
    requires AddressDone(im, s, m, t1, S, u, end, fr, r) && Keeps(t, t1, fr) && n <= m
    ensures AddressDone(im, s, n, t, S, u, end, fr, r)
  {
    hide Run, Represented, Get;
    ReachesWeaken(im.code, s, m, n, u);
    if r.Ok? {
      KeepsTrans(t, t1, u, fr);
    }
  }

  // ---------------------------------------------------------------- elements of an array variable

  /** The slot of the array variable holds the pointer of a well-formed array. */
  ghost predicate ArrayVariable(t: State, fr: Frame, st: Store, slot: int, es: seq<Expr>, live: Blocks) {
    && SlotOk(slot, fr) && slot !in fr.dirty && Represented(t, fr, st) && HeapBelow(t, live)
    && es != [] && ArrayAt(t.mem, live, Fetch(st, slot), |es|)
  }

  lemma {:induction false} SimElementAddress(im: Image, s: State, n: nat, t: State, slot: int, es: seq<Expr>, k: nat,
          rest: Asm, end: int, fr: Frame, st: Store, live: Blocks)
    returns (u: State, mid: int)
    requires At(im, s, n, t, Ins(LoadL(PTR, slot), Seq(CodeIndices(es, k), rest)), end)
    requires ArrayVariable(t, fr, st, slot, es, live) && IndicesOk(es, fr, MAX_OPERANDS - |t.stack|)
    ensures AddressDone(im, s, n, t, t.stack, u, mid, fr, Walk(t.mem, Fetch(st, slot), es, st))
    ensures Spans(im, mid, rest, end)
  {
    hide Run, Step, Execute, Reaches, Spans, Loaded, Length, Represented, Keeps, Read32, Read64, Get, Domain.Need,
      IndexOk, CodeIndices;
    assert |t.stack| + 5 <= MAX_OPERANDS by { assert IndexOk(es[0], fr); }
    CellHolds(t, fr, st, slot);
    var t1 := DoLoadL(im, s, n, t, PTR, slot, t.fp + 8 * slot, Seq(CodeIndices(es, k), rest), end);
    SameStore(t, t1, fr, st);
    mid := t1.pc + Length(CodeIndices(es, k));
    SpansSeq(im, t1.pc, CodeIndices(es, k), rest, end);
    u := SimIndices(im, s, n + 1, t1, es, k, mid, t.stack, Fetch(st, slot), fr, st, live);
    AddressBehind(im, s, n + 1, n, t, t1, t.stack, u, mid, fr, Walk(t.mem, Fetch(st, slot), es, st));
  }

  /** Reading an element pushes the word at the address the walk reaches. */
  lemma {:induction false} SimElement(im: Image, s: State, n: nat, t: State, slot: int, es: seq<Expr>, ty: Type,
          k: nat, end: int, fr: Frame, st: Store, live: Blocks)
    returns (u: State)
    requires At(im, s, n, t, CodeElement(slot, es, ty, k), end)
    requires ArrayVariable(t, fr, st, slot, es, live) && IndicesOk(es, fr, MAX_OPERANDS - |t.stack|)
    ensures match Walk(t.mem, Fetch(st, slot), es, st)
            case Ok((a, st1)) =>
              && InsideBlock(live, a) && Reaches(im.code, s, n, u) && u.status == Running && u.pc == end
              && u.stack == t.stack + [Value(AsmTy(ty), Read32(t.mem, a))] && Represented(u, fr, st1) && Keeps(t, u, fr)
            case Err(f) => Reaches(im.code, s, n, u) && u.status == Failed(f)
  {
    hide Run, Step, Execute, Reaches, Spans, Loaded, Length, Represented, Keeps, Read32, Read64, Get, IndexOk,
      CodeIndices, ArrayAt;
    var mid;
    u, mid := SimElementAddress(im, s, n, t, slot, es, k, Ins(Load(AsmTy(ty)), Done), end, fr, st, live);
    var r := Walk(t.mem, Fetch(st, slot), es, st);
    if r.Ok? {
      var (a, st1) := r.value;
      var u1 := u;
      WalkStaysInside(t.mem, live, Fetch(st, slot), es, st);
      InsideInPages(live, a);
      var b :| b in live && WordInBlock(live, b, a);
      StateBound(t, fr, st);
      KeptRegisters(t, u1, fr, st);
      HeapReads(t, u1, fr, live, b, a);
      assert |t.stack| < MAX_OPERANDS by { assert IndexOk(es[0], fr); }
      u := DoLoad(im, s, n, u1, AsmTy(ty), Done, end, t.stack, Value(PTR, a));
      AtEnd(im, s, n + 1, u, Done, end);
      ReachesWeaken(im.code, s, n + 1, n, u);
      SameStore(u1, u, fr, st1);
      KeepsTrans(t, u1, u, fr);
    }
  }

  /** What an element assignment does: evaluate the chain, then the value, then store. */
  function AssignElement(m: Mem, p: int, es: seq<Expr>, e: Expr, st: Store): Outcome<(int, int, Store)>
    requires es != []
  {
    match Walk(m, p, es, st)
    case Err(f) => Err(f)
    case Ok((a, st1)) =>
      match Eval(e, st1)
      case Err(f) => Err(f)
      case Ok((w, st2)) => Ok((a, w, st2))
  }

  /** Besides the slots of the frame only the four bytes of the element differ. */
  ghost predicate KeepsBut(t: State, u: State, fr: Frame, a: int) {
    && u == t.(pc := u.pc, stack := u.stack, mem := u.mem, status := u.status)
    && forall x | !InSlots(t, fr, x) && !(a <= x < a + 4) :: Get(u.mem, x) == Get(t.mem, x)
  }

  /** Assigning to an element puts the value's word there, inside the live block, and nothing else on the
      heap changes. */
  lemma {:induction false} SimElementAssign(im: Image, s: State, n: nat, t: State, slot: int, es: seq<Expr>, ty: Type,
          e: Expr, k: nat, end: int, fr: Frame, st: Store, live: Blocks)
    returns (u: State)
    requires At(im, s, n, t, CodeElementAssign(slot, es, ty, e, k), end)
    requires ArrayVariable(t, fr, st, slot, es, live) && IndicesOk(es, fr, MAX_OPERANDS - |t.stack|)
    requires WellTyped(e, fr) && Sound(e, fr) && Convertible(TypeOf(e), ty)
    requires |t.stack| + 1 + Domain.Need(e) <= MAX_OPERANDS
    ensures match AssignElement(t.mem, Fetch(st, slot), es, e, st)
            case Ok((a, w, st2)) =>
              && InsideBlock(live, a) && Reaches(im.code, s, n, u) && u.status == Running && u.pc == end
                   && u.stack == t.stack
              && Represented(u, fr, st2) && KeepsBut(t, u, fr, a) && Read32(u.mem, a) == w
            case Err(f) => Reaches(im.code, s, n, u) && u.status == Failed(f)
  {
    hide Run, Step, Execute, Reaches, Spans, Loaded, Length, Represented, Keeps, Read32, Read64, Get, IndexOk,
      CodeIndices, ArrayAt, KeepsBut, ExprDone, CodeExpr;
    var mid;
    var code, tail := CodeExpr(e, k + LabelsOfIndices(es)), ConvIf(TypeOf(e), ty, Ins(Store, Done));
    u, mid := SimElementAddress(im, s, n, t, slot, es, k, Seq(code, tail), end, fr, st, live);
    var r := Walk(t.mem, Fetch(st, slot), es, st);
    if r.Ok? {
      var (a, st1) := r.value;
      var u1 := u;
      WalkStaysInside(t.mem, live, Fetch(st, slot), es, st);
      SpansSeq(im, mid, code, tail, end);
      var v;
      u, v := SimExpr(im, s, n, u1, e, k + LabelsOfIndices(es), mid + Length(code), fr, st1);
      if Eval(e, st1).Ok? {
        u := StoreElement(im, s, n, t, u1, u, v, e, ty, mid + Length(code), end, fr, st, st1, live, a);
      } else {
        FailedBehind(im, s, n, u1, u, v, mid + Length(code), fr, e, st1);
      }
    }
  }

  lemma {:induction false} FailedBehind(im: Image, s: State, n: nat, t: State, u: State, v: Value, end: int, fr: Frame,
          e: Expr, st: Store)
    requires ExprDone(im, s, n + 1, t, t.stack, u, v, end, fr, TypeOf(e), Clean(e, fr), Eval(e, st)) && Eval(e, st).Err?
    ensures Reaches(im.code, s, n, u) && u.status == Failed(Eval(e, st).fault)
  {
    ReachesWeaken(im.code, s, n + 1, n, u);
  }

  lemma {:induction false} StoreElement(im: Image, s: State, n: nat, t: State, u1: State, u2: State, v: Value, e: Expr,
          ty: Type, at: int, end: int, fr: Frame, st: Store, st1: Store, live: Blocks, a: int)
    returns (u: State)
    requires Represented(t, fr, st) && HeapBelow(t, live) && InsideBlock(live, a) && Keeps(t, u1, fr) && 0 <= a
    requires u1.stack == t.stack + [Value(PTR, a)] && |t.stack| + 2 <= MAX_OPERANDS && Eval(e, st1).Ok?
    requires ExprDone(im, s, n + 1, u1, u1.stack, u2, v, at, fr, TypeOf(e), Clean(e, fr), Eval(e, st1))
    requires Spans(im, at, ConvIf(TypeOf(e), ty, Ins(Store, Done)), end)
    ensures Reaches(im.code, s, n, u) && u.status == Running && u.pc == end && u.stack == t.stack
    ensures Represented(u, fr, Eval(e, st1).value.1) && KeepsBut(t, u, fr, a)
    ensures Read32(u.mem, a) == Eval(e, st1).value.0
  {
    hide Run, Step, Execute, Reaches, Spans, Loaded, Length, Represented, Keeps, Read32, Read64, Get, KeepsBut;
    var (w, st2) := Eval(e, st1).value;
    KeepsTrans(t, u1, u2, fr);
    KeptRegisters(t, u2, fr, st);
    StateBound(t, fr, st);
    var t3, x := DoConvIf(im, s, n + 1, u2, TypeOf(e), ty, Ins(Store, Done), end, u1.stack, v, w, Clean(e, fr));
    assert t3.stack == t.stack + [Value(PTR, a), x];
    InsideInPages(live, a);
    u := DoStore(im, s, n + 1, t3, Done, end, t.stack, Value(PTR, a), x);
    AtEnd(im, s, n + 2, u, Done, end);
    ReachesWeaken(im.code, s, n + 2, n, u);
    SameStore(u2, t3, fr, st2);
    KeepsTrans(t, u2, t3, fr);
    Read32Write32(t3.mem, a, w);
    ElementStored(t, t3, u, fr, st, st2, live, a, w);
  }

  lemma {:induction false} ElementStored(t: State, v: State, u: State, fr: Frame, st: Store, st2: Store, live: Blocks,
          a: int, w: int)
    requires Represented(t, fr, st) && HeapBelow(t, live) && InsideBlock(live, a)
    requires Keeps(t, v, fr) && Represented(v, fr, st2)
    requires u == v.(pc := u.pc, stack := u.stack, mem := Write32(v.mem, a, w))
    ensures Represented(u, fr, st2) && KeepsBut(t, u, fr, a)
  {
    hide Read64, Get, Write32;
    forall x | !(a <= x < a + 4)
      ensures Get(u.mem, x) == Get(v.mem, x)
    {
      Write32Elsewhere(v.mem, a, w, x);
    }
    assert a + 4 <= t.sp;
    forall j | SlotOk(j, fr)
      ensures Holds(Read64(u.mem, u.fp + 8 * j), j, Fetch(st2, j), fr)
    {
      assert Holds(Read64(v.mem, v.fp + 8 * j), j, Fetch(st2, j), fr);
      SameCellAt(v.mem, u.mem, v.fp + 8 * j, a);
    }
  }

  lemma {:induction false} SameCellAt(m: Mem, m': Mem, p: int, a: int)
    requires (forall x | !(a <= x < a + 4) :: Get(m', x) == Get(m, x)) && a + 4 <= p
    ensures Read64(m', p) == Read64(m, p)
  {
  }
}
