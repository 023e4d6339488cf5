/** Running emitted code one instruction at a time: a cursor is a running state whose pc is at the
    start of a known piece of assembly. Each `Do...` lemma executes the first instruction, and shows that
    neither fetching it nor what it reads and writes crosses a page end. */
module Cursor {
  import opened Words
  import opened Isa
  import opened FlatMemory
  import opened Arithmetic
  import opened Frames
  import opened Machine
  import opened Accesses
  import opened Pages
  import opened CodeGen

  /** Loaded code and the addresses of its labels. */
  datatype Image = Image(code: Code, labels: Labels)

  ghost predicate Loaded(im: Image, at: int, a: Asm)
    decreases a
  {
    match a
    case Done => true
    case Ins(i, rest) =>
      LabelsKnown(i, im.labels) && at in im.code.ops && im.code.ops[at] == Resolve(i, im.labels)
      && FetchInPage(at, i) && Loaded(im, at + Size(i), rest)
    case Def(l, rest) => l in im.labels && im.labels[l] == at && IsWord(at) && Loaded(im, at, rest)
    case Seq(first, rest) => Loaded(im, at, first) && Loaded(im, at + Length(first), rest)
  }

  /** The piece `a` is loaded at an address and ends at another. */
  ghost predicate Spans(im: Image, at: int, a: Asm, end: int) {
    Loaded(im, at, a) && at + Length(a) == end
  }

  /** t is running, was reached from s in at least n steps, and stands at the start of `a`. */
  ghost predicate At(im: Image, s: State, n: nat, t: State, a: Asm, end: int) {
    t.status == Running && Reaches(im.code, s, n, t) && Spans(im, t.pc, a, end)
  }

  lemma {:induction false} SpansIns(im: Image, at: int, i: Instr<Label>, rest: Asm, end: int)
    requires Spans(im, at, Ins(i, rest), end)
    ensures Spans(im, at + Size(i), rest, end)
  {
  }

  lemma {:induction false} SpansDef(im: Image, at: int, l: Label, rest: Asm, end: int)
    requires Spans(im, at, Def(l, rest), end)
    ensures Spans(im, at, rest, end) && l in im.labels && im.labels[l] == at && IsWord(at)
  {
  }

  lemma {:induction false} SpansSeq(im: Image, at: int, a: Asm, rest: Asm, end: int)
    requires Spans(im, at, Seq(a, rest), end)
    ensures Spans(im, at, a, at + Length(a)) && Spans(im, at + Length(a), rest, end)
  {
  }

  lemma {:induction false} AtEnd(im: Image, s: State, n: nat, t: State, a: Asm, end: int)
    requires At(im, s, n, t, a, end) && (a.Done? || (a.Def? && a.rest.Done?))
    ensures t.pc == end && t.status == Running && Reaches(im.code, s, n, t)
  {
    hide Run, Loaded;
    if a.Def? {
      assert Length(a) == Length(a.rest);
    }
  }

  lemma {:induction false} AtWeaken(im: Image, s: State, m: nat, n: nat, t: State, a: Asm, end: int)
    requires At(im, s, m, t, a, end) && n <= m
    ensures At(im, s, n, t, a, end)
  {
    ReachesWeaken(im.code, s, m, n, t);
  }

  lemma {:induction false} SpansDone(im: Image, at: int, end: int)
    requires Spans(im, at, Done, end)
    ensures at == end
  {
  }

  function After(t: State, i: Instr<Label>): State {
    t.(pc := t.pc + Size(i))
  }

  /** What the instruction reads and writes stays in its pages, and a method that it calls has a header. */
  ghost predicate InsCalm(im: Image, t: State, i: Instr<Label>) {
    LabelsKnown(i, im.labels) ==>
      && AllCalm(t.dataStart, DataAccesses(im.code, After(t, i), Resolve(i, im.labels)))
      && (i.Call? ==> Resolve(i, im.labels).target in im.code.headers)
  }

  lemma {:induction false} SameFetch(at: int, i: Instr<Label>, labels: Labels)
    requires LabelsKnown(i, labels)
    ensures Size(Resolve(i, labels)) == Size(i) && FetchInPage(at, Resolve(i, labels)) == FetchInPage(at, i)
    ensures Resolve(i, labels).Call? == i.Call?
  {
    hide ToWord, Signed;
  }

  /** Executing the instruction at the cursor. */
  lemma {:induction false} DoIns(im: Image, s: State, n: nat, t: State, i: Instr<Label>, rest: Asm, end: int)
    requires At(im, s, n, t, Ins(i, rest), end) && InsCalm(im, t, i)
    ensures LabelsKnown(i, im.labels) && Size(Resolve(i, im.labels)) == Size(i)
    ensures Reaches(im.code, s, n + 1, Execute(im.code, After(t, i), Resolve(i, im.labels)))
    ensures Spans(im, t.pc + Size(i), rest, end)
  {
    hide Run, Reaches, Resolve, DataAccesses, AllCalm, StepAccesses, FetchInPage, Execute, LabelsKnown;
    SameFetch(t.pc, i, im.labels);
    StepIsCalm(im.code, t);
    ReachesStep(im.code, s, n, t);
  }

  /** Rotations and copies work on operands only. */
  lemma {:induction false} RotationCalm(im: Image, t: State, d: nat)
    ensures InsCalm(im, t, RotU(d)) && InsCalm(im, t, RotD(d)) && InsCalm(im, t, Dup(d))
  {
  }

  lemma {:induction false} DoPush(im: Image, s: State, n: nat, t: State, ty: Ty, imm: int, rest: Asm, end: int)
    returns (u: State)
    requires At(im, s, n, t, Ins(Push(ty, imm), rest), end)
    requires !IsWide(ty) && |t.stack| < MAX_OPERANDS
    ensures u == t.(pc := t.pc + 6, stack := t.stack + [Value(ty, ToWord(imm))])
    ensures At(im, s, n + 1, u, rest, end)
  {
    DoIns(im, s, n, t, Push(ty, imm), rest, end);
    u := t.(pc := t.pc + 6, stack := t.stack + [Value(ty, ToWord(imm))]);
    assert Drop(After(t, Push(ty, imm)), 0) == t.stack;
  }

  lemma {:induction false} DoPop(im: Image, s: State, n: nat, t: State, rest: Asm, end: int, S: seq<Value>, v: Value)
    returns (u: State)
    requires At(im, s, n, t, Ins(Pop, rest), end) && t.stack == S + [v]
    ensures u == t.(pc := t.pc + 1, stack := S)
    ensures At(im, s, n + 1, u, rest, end)
  {
    DoIns(im, s, n, t, Pop, rest, end);
    u := t.(pc := t.pc + 1, stack := S);
    assert Drop(t, 1) == S;
  }

  lemma {:induction false} DoDup(im: Image, s: State, n: nat, t: State, d: nat, rest: Asm, end: int) returns (u: State)
    requires At(im, s, n, t, Ins(Dup(d), rest), end)
    requires d < |t.stack| < MAX_OPERANDS && d < 256
    ensures u == t.(pc := t.pc + 3, stack := t.stack + [t.stack[|t.stack| - 1 - d]])
    ensures At(im, s, n + 1, u, rest, end)
  {
    hide InsCalm, DataAccesses, Reaches;
    RotationCalm(im, t, d);
    DoIns(im, s, n, t, Dup(d), rest, end);
    u := t.(pc := t.pc + 3, stack := t.stack + [t.stack[|t.stack| - 1 - d]]);
    assert Drop(After(t, Dup(d)), 0) == t.stack;
  }

  lemma {:induction false} DoSwap(im: Image, s: State, n: nat, t: State, rest: Asm, end: int, S: seq<Value>, x: Value,
          y: Value)
    returns (u: State)
    requires At(im, s, n, t, Ins(Swap, rest), end) && t.stack == S + [x, y]
    ensures u == t.(pc := t.pc + 1, stack := S + [y, x])
    ensures At(im, s, n + 1, u, rest, end)
  {
    DoIns(im, s, n, t, Swap, rest, end);
    u := t.(pc := t.pc + 1, stack := S + [y, x]);
    assert Drop(t, 2) == S;
  }

  /** The top operand goes below the d - 1 others. */
  lemma {:induction false} DoRotU(im: Image, s: State, n: nat, t: State, d: nat, rest: Asm, end: int, S: seq<Value>,
          D: seq<Value>, x: Value) returns (u: State)
    requires At(im, s, n, t, Ins(RotU(d), rest), end) && t.stack == S + D + [x] && d == |D| + 1 < 256
    ensures u == t.(pc := t.pc + 3, stack := S + [x] + D) && At(im, s, n + 1, u, rest, end)
  {
    hide InsCalm, DataAccesses, Reaches;
    RotationCalm(im, t, d);
    DoIns(im, s, n, t, RotU(d), rest, end);
    var m := |t.stack|;
    assert Drop(t, d) == S;
    assert t.stack[m - d..m - 1] == D;
    u := t.(pc := t.pc + 3, stack := S + [x] + D);
  }

  lemma {:induction false} DoRotU3(im: Image, s: State, n: nat, t: State, rest: Asm, end: int, S: seq<Value>, x: Value,
          y: Value, z: Value)
    returns (u: State)
    requires At(im, s, n, t, Ins(RotU(3), rest), end) && t.stack == S + [x, y, z]
    ensures u == t.(pc := t.pc + 3, stack := S + [z, x, y])
    ensures At(im, s, n + 1, u, rest, end)
  {
    hide At;
    assert S + [x, y, z] == S + [x, y] + [z] && S + [z, x, y] == S + [z] + [x, y];
    u := DoRotU(im, s, n, t, 3, rest, end, S, [x, y], z);
  }

  lemma {:induction false} DoLoadL(im: Image, s: State, n: nat, t: State, ty: Ty, slot: int, a: int, rest: Asm,
          end: int) returns (u: State)
    requires At(im, s, n, t, Ins(LoadL(ty, slot), rest), end)
    requires -0x8000_0000 <= slot < 0x8000_0000 && SlotAddress(t.Calls(), slot) == Outcome.Ok(a)
    requires a >= t.sp && |t.stack| < MAX_OPERANDS && InOnePage(a, 8)
    ensures u == t.(pc := t.pc + 6, stack := t.stack + [Value(ty, Read64(t.mem, a))])
    ensures At(im, s, n + 1, u, rest, end)
  {
    WordRoundTrip(slot);
    DoIns(im, s, n, t, LoadL(ty, slot), rest, end);
    u := t.(pc := t.pc + 6, stack := t.stack + [Value(ty, Read64(t.mem, a))]);
    assert Drop(After(t, LoadL(ty, slot)), 0) == t.stack;
  }

  lemma {:induction false} DoStoreL(im: Image, s: State, n: nat, t: State, slot: int, a: int, rest: Asm, end: int,
          S: seq<Value>, v: Value)
    returns (u: State)
    requires At(im, s, n, t, Ins(StoreL(slot), rest), end) && t.stack == S + [v]
    requires -0x8000_0000 <= slot < 0x8000_0000 && SlotAddress(t.Calls(), slot) == Outcome.Ok(a) && a >= t.sp
    requires InOnePage(a, 8) && t.dataStart <= a
    ensures u == t.(pc := t.pc + 5, stack := S, mem := Write64(t.mem, a, v.raw % W64))
    ensures At(im, s, n + 1, u, rest, end)
  {
    WordRoundTrip(slot);
    DoIns(im, s, n, t, StoreL(slot), rest, end);
    u := t.(pc := t.pc + 5, stack := S, mem := Write64(t.mem, a, v.raw % W64));
    assert Drop(t, 1) == S;
  }

  lemma {:induction false} DoAddrL(im: Image, s: State, n: nat, t: State, slot: int, a: int, rest: Asm, end: int)
    returns (u: State)
    requires At(im, s, n, t, Ins(AddrL(slot), rest), end) && |t.stack| < MAX_OPERANDS && a >= 0
    requires -0x8000_0000 <= slot < 0x8000_0000 && SlotAddress(t.Calls(), slot) == Outcome.Ok(a)
    ensures u == t.(pc := t.pc + 5, stack := t.stack + [Value(PTR, a)])
    ensures At(im, s, n + 1, u, rest, end)
  {
    WordRoundTrip(slot);
    DoIns(im, s, n, t, AddrL(slot), rest, end);
    u := t.(pc := t.pc + 5, stack := t.stack + [Value(PTR, a)]);
    assert Drop(After(t, AddrL(slot)), 0) == t.stack;
  }

  lemma {:induction false} DoLoad(im: Image, s: State, n: nat, t: State, ty: Ty, rest: Asm, end: int, S: seq<Value>,
          p: Value)
    returns (u: State)
    requires At(im, s, n, t, Ins(Load(ty), rest), end) && t.stack == S + [p]
    requires !IsWide(ty) && p.ty == PTR && InPtr(t, Low(p)) && |S| < MAX_OPERANDS && InOnePage(Low(p), 4)
    ensures u == t.(pc := t.pc + 2, stack := S + [Value(ty, Read32(t.mem, Low(p)))])
    ensures At(im, s, n + 1, u, rest, end)
  {
    DoIns(im, s, n, t, Load(ty), rest, end);
    u := t.(pc := t.pc + 2, stack := S + [Value(ty, Read32(t.mem, Low(p)))]);
    assert Drop(t, 1) == S;
  }

  lemma {:induction false} DoStore(im: Image, s: State, n: nat, t: State, rest: Asm, end: int, S: seq<Value>, p: Value,
          v: Value)
    returns (u: State)
    requires At(im, s, n, t, Ins(Store, rest), end) && t.stack == S + [p, v]
    requires p.ty == PTR && InPtr(t, Low(p)) && !IsWide(v.ty) && InOnePage(Low(p), 4) && t.dataStart <= Low(p)
    ensures u == t.(pc := t.pc + 1, stack := S, mem := Write32(t.mem, Low(p), Low(v)))
    ensures At(im, s, n + 1, u, rest, end)
  {
    DoIns(im, s, n, t, Store, rest, end);
    u := t.(pc := t.pc + 1, stack := S, mem := Write32(t.mem, Low(p), Low(v)));
    assert Drop(t, 2) == S;
  }

  lemma {:induction false} DoConv(im: Image, s: State, n: nat, t: State, ty: Ty, rest: Asm, end: int, S: seq<Value>,
          v: Value, r: Value)
    returns (u: State)
    requires At(im, s, n, t, Ins(Conv(ty), rest), end) && t.stack == S + [v]
    requires ConvertTo(v, ty) == Outcome.Ok(r) && |S| < MAX_OPERANDS
    ensures u == t.(pc := t.pc + 2, stack := S + [r])
    ensures At(im, s, n + 1, u, rest, end)
  {
    DoIns(im, s, n, t, Conv(ty), rest, end);
    u := t.(pc := t.pc + 2, stack := S + [r]);
    assert Drop(t, 1) == S;
  }

  lemma {:induction false} DoNot(im: Image, s: State, n: nat, t: State, rest: Asm, end: int, S: seq<Value>, v: Value)
    returns (u: State)
    requires At(im, s, n, t, Ins(Not, rest), end) && t.stack == S + [v]
    requires IsInteger(v.ty) && |S| < MAX_OPERANDS
    ensures u == t.(pc := t.pc + 1, stack := S + [Value(v.ty, W64 - 1 - v.raw % W64)])
    ensures At(im, s, n + 1, u, rest, end)
  {
    DoIns(im, s, n, t, Not, rest, end);
    u := t.(pc := t.pc + 1, stack := S + [Value(v.ty, W64 - 1 - v.raw % W64)]);
    assert Drop(t, 1) == S;
  }

  /** A binary operator that yields a value. */
  lemma {:induction false} DoArith(im: Image, s: State, n: nat, t: State, op: ArithOp, rest: Asm, end: int,
                S: seq<Value>, x: Value, y: Value, r: Value)
    returns (u: State)
    requires At(im, s, n, t, Ins(Arith(op), rest), end) && t.stack == S + [x, y]
    requires op in {DIV, MOD} ==> !IsZero(y)
    requires Apply(op, x, y) == Outcome.Ok(r) && |S| < MAX_OPERANDS
    ensures u == t.(pc := t.pc + 1, stack := S + [r])
    ensures At(im, s, n + 1, u, rest, end)
  {
    DoIns(im, s, n, t, Arith(op), rest, end);
    u := t.(pc := t.pc + 1, stack := S + [r]);
    assert Drop(t, 2) == S;
  }

  /** A binary operator that raises. */
  lemma {:induction false} DoArithFails(im: Image, s: State, n: nat, t: State, op: ArithOp, rest: Asm, end: int,
                     S: seq<Value>, x: Value, y: Value, f: Fault)
    returns (u: State)
    requires At(im, s, n, t, Ins(Arith(op), rest), end) && t.stack == S + [x, y]
    requires if op in {DIV, MOD} && IsZero(y) then f == DivisionByZero else Apply(op, x, y) == Err(f)
    ensures Reaches(im.code, s, n + 1, u) && u.status == Failed(f)
  {
    DoIns(im, s, n, t, Arith(op), rest, end);
    u := Execute(im.code, After(t, Arith(op)), Arith(op));
  }

  lemma {:induction false} DoJmp(im: Image, s: State, n: nat, t: State, l: Label, rest: Asm, end: int)
    returns (u: State)
    requires At(im, s, n, t, Ins(Jmp(l), rest), end)
    requires l in im.labels && IsWord(im.labels[l])
    ensures u == t.(pc := im.labels[l])
    ensures u.status == Running && Reaches(im.code, s, n + 1, u)
  {
    DoIns(im, s, n, t, Jmp(l), rest, end);
    u := t.(pc := im.labels[l]);
  }

  /** jez when onZero, jnz otherwise: taken or not, the condition is popped. */
  lemma {:induction false} DoBranch(im: Image, s: State, n: nat, t: State, onZero: bool, l: Label, rest: Asm, end: int,
                 S: seq<Value>, v: Value)
    returns (u: State)
    requires At(im, s, n, t, Ins(if onZero then Jez(l) else Jnz(l), rest), end) && t.stack == S + [v]
    requires l in im.labels && IsWord(im.labels[l])
    ensures IsZero(v) == onZero ==> u == t.(pc := im.labels[l], stack := S)
    ensures IsZero(v) != onZero ==> u == t.(pc := t.pc + 5, stack := S) && At(im, s, n + 1, u, rest, end)
    ensures u.status == Running && Reaches(im.code, s, n + 1, u)
  {
    var i: Instr<Label> := if onZero then Jez(l) else Jnz(l);
    DoIns(im, s, n, t, i, rest, end);
    u := if IsZero(v) == onZero then t.(pc := im.labels[l], stack := S) else t.(pc := t.pc + 5, stack := S);
    assert Drop(t, 1) == S;
  }
}
