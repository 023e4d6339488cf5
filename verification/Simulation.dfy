/** Compiled expressions against their meaning.

    A frame of the VM represents a store when the low four bytes of every slot hold the slot's word, and the
    high four are zero unless the slot is dirty.
    Running the code of an expression from any operand stack pushes its value and leaves the frame
    representing the new store, or raises the error the source raises. */
module Simulation {
  import opened Words
  import opened Isa
  import opened FlatMemory
  import opened Arithmetic
  import opened Frames
  import opened Machine
  import opened Accesses
  import opened Pages
  import opened Source
  import opened Domain
  import opened CodeGen
  import opened Cursor

  // ---------------------------------------------------------------- frames represent stores

  /** The active frame has the given shape, lies between the heap and the top of memory, and every slot is in
      one page. */
  ghost predicate FrameOk(t: State, fr: Frame) {
    && t.frames != []
    && t.frames[|t.frames| - 1].args == fr.args
    && t.frames[|t.frames| - 1].locals == fr.locals
    && t.sp == t.fp - 8 * fr.locals
    && 0 <= t.sp && t.dataStart <= t.sp
    && t.fp + 8 * fr.args + 8 <= W32
    && forall j | SlotOk(j, fr) :: CellInPage(t, j)
  }

  /** The cell of a slot does not cross a page end. */
  predicate CellInPage(t: State, slot: int) {
    InOnePage(t.fp + 8 * slot, 8)
  }

  ghost predicate Represented(t: State, fr: Frame, st: Store) {
    FrameOk(t, fr) && forall j | SlotOk(j, fr) :: Holds(Read64(t.mem, t.fp + 8 * j), j, Fetch(st, j), fr)
  }

  /** What the cell of a slot holds when its variable has the given word. */
  predicate Holds(raw: int, slot: int, w: int, fr: Frame) {
    raw % W32 == w && (slot !in fr.dirty ==> raw == w)
  }

  /** Bytes of the argument and local slots of the active frame. */
  predicate InSlots(t: State, fr: Frame, a: int) {
    (t.sp <= a < t.fp) || (t.fp + 8 <= a < t.fp + 8 + 8 * fr.args)
  }

  /** u differs from t at most in pc, operand stack, status and the slots of the active frame. */
  ghost predicate Keeps(t: State, u: State, fr: Frame) {
    u == t.(pc := u.pc, stack := u.stack, mem := u.mem, status := u.status)
    && forall a | !InSlots(t, fr, a) :: Get(u.mem, a) == Get(t.mem, a)
  }

  lemma {:induction false} KeepsTrans(t: State, u: State, v: State, fr: Frame)
    requires Keeps(t, u, fr) && Keeps(u, v, fr)
    ensures Keeps(t, v, fr)
  {
    forall a | !InSlots(t, fr, a)
      ensures Get(v.mem, a) == Get(t.mem, a)
    {
      assert !InSlots(u, fr, a);
    }
  }

  lemma {:induction false} SlotInFrame(t: State, fr: Frame, slot: int)
    requires FrameOk(t, fr) && SlotOk(slot, fr)
    ensures SlotAddress(t.Calls(), slot) == Outcome.Ok(t.fp + 8 * slot)
    ensures t.sp <= t.fp + 8 * slot && t.fp + 8 * slot + 8 <= W32 && IsWord(t.fp + 8 * slot)
    ensures forall a | t.fp + 8 * slot <= a < t.fp + 8 * slot + 8 :: InSlots(t, fr, a)
    ensures -0x8000_0000 <= slot < 0x8000_0000
    ensures InOnePage(t.fp + 8 * slot, 8) && InOnePage(t.fp + 8 * slot, 4) && t.dataStart <= t.fp + 8 * slot
  {
    assert CellInPage(t, slot);
  }

  /** Changing one slot's cell, whether by storeL or by a store through an addrL pointer. */
  lemma {:induction false} SlotWrite(t: State, u: State, fr: Frame, st: Store, slot: int, raw: int, w: int)
    requires Represented(t, fr, st) && SlotOk(slot, fr) && Holds(raw, slot, w, fr)
    requires u == t.(pc := u.pc, stack := u.stack, mem := u.mem)
    requires CellUpdate(t.mem, u.mem, t.fp + 8 * slot, raw)
    ensures Represented(u, fr, st[slot := w]) && Keeps(t, u, fr)
  {
    hide Read64, Get;
    SlotInFrame(t, fr, slot);
    forall j | SlotOk(j, fr)
      ensures Holds(Read64(u.mem, u.fp + 8 * j), j, Fetch(st[slot := w], j), fr)
    {
      assert Holds(Read64(t.mem, t.fp + 8 * j), j, Fetch(st, j), fr);
    }
  }

  lemma {:induction false} CellHolds(t: State, fr: Frame, st: Store, slot: int)
    requires Represented(t, fr, st) && SlotOk(slot, fr)
    ensures SlotAddress(t.Calls(), slot) == Outcome.Ok(t.fp + 8 * slot)
    ensures t.sp <= t.fp + 8 * slot && IsWord(t.fp + 8 * slot) && -0x8000_0000 <= slot < 0x8000_0000
    ensures InOnePage(t.fp + 8 * slot, 8) && InOnePage(t.fp + 8 * slot, 4) && t.dataStart <= t.fp + 8 * slot
    ensures Holds(Read64(t.mem, t.fp + 8 * slot), slot, Fetch(st, slot), fr)
    ensures Read32(t.mem, t.fp + 8 * slot) == Fetch(st, slot)
    ensures Read64(t.mem, t.fp + 8 * slot) == Fetch(st, slot) + W32 * Read32(t.mem, t.fp + 8 * slot + 4)
  {
    hide Read32, Get;
    SlotInFrame(t, fr, slot);
  }

  lemma {:induction false} SameStore(t: State, u: State, fr: Frame, st: Store)
    requires Represented(t, fr, st) && u == t.(pc := u.pc, stack := u.stack)
    ensures Represented(u, fr, st) && Keeps(t, u, fr)
  {
  }

  // ---------------------------------------------------------------- values

  /** A stack value of a source type that stands for a word; a clean one has a zero high half. */
  predicate Shows(v: Value, t: Type, w: int, clean: bool) {
    v.ty == AsmTy(t) && Low(v) == w && (clean ==> v.raw == w)
  }

  /** What running a piece of code must establish: it ends at `end` with one more value on top of S,
      or it raises what the source raises. */
  ghost predicate ExprDone(im: Image, s: State, n: nat, t: State, S: seq<Value>, u: State, v: Value, end: int,
                           fr: Frame, ty: Type, clean: bool, r: Outcome<(int, Store)>) {
    match r
    case Ok((w, st)) =>
      && u.status == Running && Reaches(im.code, s, n, u)
      && u.pc == end && u.stack == S + [v]
      && Shows(v, ty, w, clean) && Represented(u, fr, st) && Keeps(t, u, fr)
    case Err(f) => Reaches(im.code, s, n, u) && u.status == Failed(f)
  }

  /** Code that ran first, and only changed what running code may change, can be put in front. */
  lemma {:induction false} Prefixed(im: Image, s: State, m: nat, n: nat, t: State, t1: State, S: seq<Value>, u: State,
          v: Value, end: int, fr: Frame, ty: Type, clean: bool, r: Outcome<(int, Store)>)
    requires ExprDone(im, s, m, t1, S, u, v, end, fr, ty, clean, r) && Keeps(t, t1, fr) && n <= m
    ensures ExprDone(im, s, n, t, S, u, v, end, fr, ty, clean, r)
  {
    hide Get, Run, Represented, Read64;
    ReachesWeaken(im.code, s, m, n, u);
    if r.Ok? {
      KeepsTrans(t, t1, u, fr);
    }
  }

  /** A conversion between two source types, emitted only when their assembly types differ. */
  lemma {:induction false} DoConvIf(im: Image, s: State, n: nat, t: State, from: Type, to: Type, rest: Asm, end: int,
                 S: seq<Value>, v: Value, w: int, clean: bool)
    returns (u: State, r: Value)
    requires At(im, s, n, t, ConvIf(from, to, rest), end) && t.stack == S + [v] && |S| < MAX_OPERANDS
    requires Shows(v, from, w, clean)
    ensures At(im, s, n, u, rest, end) && u == t.(pc := u.pc, stack := S + [r])
    ensures Shows(r, to, w, clean || (from == TInt) != (to == TInt))
  {
    if AsmTy(from) == AsmTy(to) {
      u, r := t, v;
    } else {
      r := Value(AsmTy(to), w);
      SignedRoundTrip(w);
      u := DoConv(im, s, n, t, AsmTy(to), rest, end, S, v, r);
      ReachesWeaken(im.code, s, n + 1, n, u);
    }
  }

  // ---------------------------------------------------------------- operators

  /** ++ and -- on a loaded word. */
  lemma {:induction false} BumpValue(t: Type, w: int, up: bool)
    requires IsNumeric(t) && IsWord(w)
    ensures Apply(if up then ADD else SUB, Value(AsmTy(t), w), Value(AsmTy(t), 1))
      == Outcome.Ok(Value(AsmTy(t), Bumped(w, up)))
  {
  }

  lemma {:induction false} SignedMulMod(a: int, p: int)
    requires IsWord(a)
    ensures ToWord(Signed(a) * p) == a * p % W32
  {
    MulMod(Signed(a), p);
    SignedRoundTrip(a);
  }

  lemma {:induction false} BitwiseValue(op: BitOp, x: Value, y: Value, a: int, b: int, cx: bool, cy: bool)
    requires Shows(x, TInt, a, cx) && Shows(y, TInt, b, cy)
    ensures Bits(op, x.raw, y.raw) % W32 == Bits(op, a, b) && IsWord(Bits(op, a, b))
    ensures (if op == And then cx || cy else cx && cy) ==> Bits(op, x.raw, y.raw) == Bits(op, a, b)
  {
    Pow2Is32();
    BitsLow(op, x.raw, y.raw, 32);
    BitsBounded(op, a, b, 32);
    if op == And {
      AndAtMost(x.raw, y.raw);
    }
  }

  lemma {:induction false} ShiftLeftValue(x: Value, y: Value, a: int, b: int, cx: bool, cy: bool)
    requires Shows(x, TInt, a, cx) && Shows(y, TInt, b, cy)
    ensures ShiftLeft(x, y) == Outcome.Ok(Value(I32, ToWord(Signed(a) * Pow2(b % 32))))
  {
    var p := Pow2(b % 32);
    MulMod(x.raw, p);
    SignedMulMod(a, p);
    Mod64Then32(x.raw * p);
  }

  /** The VM's operator on two operands computes the source operator. */
  predicate OpAgrees(op: BinOp, x: Value, y: Value, a: int, b: int, clean: bool)
    requires IsWord(a) && IsWord(b)
  {
    match ApplyOp(op, a, b)
    case Ok(w) =>
      && !(Operator(op) in {DIV, MOD} && IsZero(y))
      && Apply(Operator(op), x, y).Ok?
      && Shows(Apply(Operator(op), x, y).value, if IsComparison(op) then TBool else TInt, w, clean)
    case Err(f) =>
      if Operator(op) in {DIV, MOD} && IsZero(y) then f == DivisionByZero
      else Apply(Operator(op), x, y) == Outcome.Err(f)
  }

  lemma {:induction false} DivideAgrees(op: BinOp, x: Value, y: Value, a: int, b: int, cx: bool, cy: bool)
    requires op == IntDivide || op == Modulo
    requires Shows(x, TInt, a, cx) && Shows(y, TInt, b, cy)
    ensures OpAgrees(op, x, y, a, b, true)
  {
    hide TruncDiv, TruncMod;
    if b != 0 {
      var q := TruncDiv(Signed(a), Signed(b));
      var r := TruncMod(Signed(a), Signed(b));
      assert IsWord(ToWord(q)) && IsWord(ToWord(r));
    }
  }

  lemma {:induction false} BitwiseAgrees(op: BinOp, x: Value, y: Value, a: int, b: int, cx: bool, cy: bool)
    requires op in {BitAnd, BitOr, BitXor}
    requires Shows(x, TInt, a, cx) && Shows(y, TInt, b, cy)
    ensures OpAgrees(op, x, y, a, b, CleanResult(op, cx, cy))
  {
    hide Bits, Bit;
    BitwiseValue(if op == BitAnd then And else if op == BitOr then Or else Xor, x, y, a, b, cx, cy);
  }

  lemma {:induction false} ShiftAgrees(op: BinOp, x: Value, y: Value, a: int, b: int, cx: bool, cy: bool)
    requires op in {LeftShift, ArithShift, LogicShift}
    requires Shows(x, TInt, a, cx) && Shows(y, TInt, b, cy) && Reads(op, cx, cy)
    ensures OpAgrees(op, x, y, a, b, true)
  {
    hide Pow2, Quotient, Apply, OpAgrees;
    if op == LeftShift {
      ShiftLeftApplies(x, y, a, b, cx, cy);
      ResultAgrees(op, x, y, a, b, Signed(a) * Pow2(b % 32));
    } else if op == ArithShift {
      ShiftRightValue(x, y, a, b, cx, cy);
      ResultAgrees(op, x, y, a, b, Signed(a) / Pow2(b % 32));
    } else {
      ShiftRightValue(x, y, a, b, cx, cy);
      ResultAgrees(op, x, y, a, b, Quotient(a, Pow2(b % 32)));
    }
  }

  lemma {:induction false} ShiftLeftApplies(x: Value, y: Value, a: int, b: int, cx: bool, cy: bool)
    requires Shows(x, TInt, a, cx) && Shows(y, TInt, b, cy)
    ensures Apply(SHL, x, y) == Outcome.Ok(Value(I32, ToWord(Signed(a) * Pow2(b % 32))))
  {
    ShiftLeftValue(x, y, a, b, cx, cy);
  }

  /** An operator whose result is one number reduced to a word on both sides. */
  lemma {:induction false} ResultAgrees(op: BinOp, x: Value, y: Value, a: int, b: int, r: int)
    requires op in {Plus, Minus, Times, LeftShift, ArithShift, LogicShift} && IsWord(a) && IsWord(b)
    requires ApplyOp(op, a, b) == Outcome.Ok(ToWord(r))
    requires Apply(Operator(op), x, y) == Outcome.Ok(Value(I32, ToWord(r)))
    ensures OpAgrees(op, x, y, a, b, true)
  {
    hide ApplyOp, Apply;
    WordIsWord(r);
  }

  lemma {:induction false} ShiftRightValue(x: Value, y: Value, a: int, b: int, cx: bool, cy: bool)
    requires Shows(x, TInt, a, cx) && Shows(y, TInt, b, cy)
    ensures Apply(SAR, x, y) == Outcome.Ok(Value(I32, ToWord(Signed(a) / Pow2(b % 32))))
    ensures cx ==> Apply(SHR, x, y) == Outcome.Ok(Value(I32, ToWord(Quotient(a, Pow2(b % 32)))))
  {
    hide Pow2, Quotient;
  }

  lemma {:induction false} CompareAgrees(op: BinOp, x: Value, y: Value, a: int, b: int, cx: bool, cy: bool)
    requires IsComparison(op)
    requires Shows(x, TInt, a, cx) && Shows(y, TInt, b, cy) && Reads(op, cx, cy)
    ensures OpAgrees(op, x, y, a, b, true)
  {
  }

  lemma {:induction false} WordIsWord(i: int)
    ensures IsWord(ToWord(i))
  {
  }

  lemma {:induction false} LinearAgrees(op: BinOp, x: Value, y: Value, a: int, b: int, cx: bool, cy: bool)
    requires op in {Plus, Minus, Times} && Shows(x, TInt, a, cx) && Shows(y, TInt, b, cy)
    ensures OpAgrees(op, x, y, a, b, true)
  {
    hide Div, Mod, Bitwise, ShiftLeft, ShiftRight, Compare, Signed, ToWord, OpAgrees;
    var r := if op == Plus then Signed(a) + Signed(b) else if op == Minus then Signed(a) - Signed(b)
      else Signed(a) * Signed(b);
    ResultAgrees(op, x, y, a, b, r);
  }

  /** Every operator agrees, given clean operands where all 64 bits are read. */
  lemma {:induction false} OperatorAgrees(op: BinOp, x: Value, y: Value, a: int, b: int, cx: bool, cy: bool)
    requires !IsLogic(op) && Shows(x, TInt, a, cx) && Shows(y, TInt, b, cy) && Reads(op, cx, cy)
    ensures OpAgrees(op, x, y, a, b, CleanResult(op, cx, cy))
  {
    hide ApplyOp, Apply, OpAgrees, Shows, Reads;
    if op in {Plus, Minus, Times} {
      LinearAgrees(op, x, y, a, b, cx, cy);
    } else if op == IntDivide || op == Modulo {
      DivideAgrees(op, x, y, a, b, cx, cy);
    } else if op in {BitAnd, BitOr, BitXor} {
      BitwiseAgrees(op, x, y, a, b, cx, cy);
    } else if op in {LeftShift, ArithShift, LogicShift} {
      ShiftAgrees(op, x, y, a, b, cx, cy);
    } else {
      CompareAgrees(op, x, y, a, b, cx, cy);
    }
  }
}
