/** What folding a mixed ternary inside an equality changes at run time. */
module FoldedEquality {
  import opened Words
  import opened Isa
  import opened FlatMemory
  import opened Arithmetic
  import opened Machine
  import opened Accesses
  import opened Source
  import opened Domain
  import opened CodeGen
  import opened Cursor
  import opened Simulation
  import opened ExprSimulation
  import opened DirtyOperands
  import FoldedProgram

  /** At run time: the equality as written gives the answer of the source; folded, it gives another one exactly for
      the stores in which the answer is yes and the operand v that the int branch leaves has a high half. */
  lemma {:induction false} MixedEqualityRuns(im: Image, s: State, n: nat, w: State, f: State, t: Expr, c: Expr, r: Expr,
          k: nat, atW: int, atF: int, fr: Frame, st: Store)
    returns (uw: State, uf: State, v: Value)
    requires TypeOf(t) == TInt && TypeOf(c) == TChar && TypeOf(r) == TInt && Clean(r, fr)
    requires WellTyped(t, fr) && Sound(t, fr) && WellTyped(c, fr) && Sound(c, fr) && WellTyped(r, fr) && Sound(r, fr)
    requires At(im, s, n, w, CodeExpr(Binary(Equal, Ternary(BoolLit(true), t, c), r), k), atW)
    requires At(im, s, n, f, CodeExpr(Binary(Equal, t, r), k), atF)
    requires Represented(w, fr, st) && Represented(f, fr, st) && w.stack == f.stack
    requires |w.stack| + Max(Max(Need(t), Need(c)), 1 + Need(r)) <= MAX_OPERANDS
    requires Eval(t, st).Ok? && Eval(r, Eval(t, st).value.1).Ok?
    ensures var a, b := Eval(t, st).value.0, Eval(r, Eval(t, st).value.1).value.0;
      && Reaches(im.code, s, n, uw) && uw.status == Running && uw.pc == atW && uw.stack == w.stack + [Truth(a == b)]
      && Reaches(im.code, s, n, uf) && uf.status == Running && uf.pc == atF && Low(v) == a
      && (Clean(t, fr) ==> High(v) == 0)
      && (uf.stack == uw.stack <==> !(a == b && High(v) != 0))
  {
    hide Run, Step, Execute, Reaches, Spans, Loaded, Length, Represented, Keeps, Get, Read64, CodeExpr, Eval, Need,
      Sound, WellTyped;
    var e := Binary(Equal, Ternary(BoolLit(true), t, c), r);
    FoldedProgram.MixedEquality(t, c, r, fr);
    MixedTyped(t, c, r, fr);
    MixedValue(t, c, r, st);
    var x;
    uw, x := SimExpr(im, s, n, w, e, k, atW, fr, st);
    ReachesWeaken(im.code, s, n + 1, n, uw);
    uf, v := EqualityRuns(im, s, n, f, t, r, k, atF, fr, st);
    var a, b := Eval(t, st).value.0, Eval(r, Eval(t, st).value.1).value.0;
    assert x == Truth(a == b);
    SameLast(w.stack, Truth(a == b && High(v) == 0), Truth(a == b));
  }

  lemma {:induction false} SameLast(S: seq<Value>, x: Value, y: Value)
    ensures S + [x] == S + [y] <==> x == y
  {
    if S + [x] == S + [y] {
      assert (S + [x])[|S|] == (S + [y])[|S|];
    }
  }

  lemma {:induction false} MixedTyped(t: Expr, c: Expr, r: Expr, fr: Frame)
    requires TypeOf(t) == TInt && TypeOf(c) == TChar && TypeOf(r) == TInt
    requires WellTyped(t, fr) && WellTyped(c, fr) && WellTyped(r, fr)
    ensures var e := Binary(Equal, Ternary(BoolLit(true), t, c), r);
      WellTyped(e, fr) && TypeOf(e) == TBool && Clean(e, fr)
        && Need(e) == Max(Max(1, Max(Need(t), Need(c))), 1 + Need(r))
  {
    var inner := Ternary(BoolLit(true), t, c);
    assert Need(BoolLit(true)) == 1 && Need(inner) == Max(1, Max(Need(t), Need(c)));
    assert WellTyped(BoolLit(true), fr) && TypeOf(BoolLit(true)) == TBool && TypeOf(inner) == TChar;
  }

  lemma {:induction false} MixedValue(t: Expr, c: Expr, r: Expr, st: Store)
    requires Eval(t, st).Ok? && Eval(r, Eval(t, st).value.1).Ok?
    ensures var (b, st2) := Eval(r, Eval(t, st).value.1).value;
      Eval(Binary(Equal, Ternary(BoolLit(true), t, c), r), st)
        == Outcome.Ok((Flag(Eval(t, st).value.0 == b), st2))
  {
    assert Eval(BoolLit(true), st) == Outcome.Ok((1, st));
    assert Eval(Ternary(BoolLit(true), t, c), st) == Eval(t, st);
  }
}
