/** Laws of the source language itself: fuel is only a bound, jumps and returns stay where the analyser
    allows them, and a range loop takes exactly the turns its bounds promise. */
module SourceLaws {
  import opened Words
  import opened Isa
  import opened Source

  // ---------------------------------------------------------------- fuel

  /** An outcome reached within some fuel is the outcome for any larger fuel. */
  lemma {:induction false} MoreFuel(f: nat, g: nat, s: Stm, st: Store)
    requires f <= g && !Exec(f, s, st).OutOfFuel?
    ensures Exec(g, s, st) == Exec(f, s, st)
    decreases f, s, 1
  {
    hide Eval, EvalRight;
    match s
    case Block(ss) => MoreFuelBlock(f, g, ss, st);
    case If(c, thn, els) =>
      if Eval(c, st).Ok? {
        var st1 := Eval(c, st).value.1;
        if Eval(c, st).value.0 != 0 {
          MoreFuelBlock(f, g, thn, st1);
        } else if els.Some? {
          MoreFuel(f, g, els.value, st1);
        }
      }
    case While(c, body) =>
      if f > 0 && Eval(c, st).Ok? && Eval(c, st).value.0 != 0 {
        MoreFuelBlock(f, g, body, Eval(c, st).value.1);
        match ExecBlock(f, body, Eval(c, st).value.1)
        case Next(st2) => MoreFuel(f - 1, g - 1, s, st2);
        case Continued(st2) => MoreFuel(f - 1, g - 1, s, st2);
        case _ =>
      }
    case For(_, _, a, b, step, _) =>
      if EvalStep(step, st).Ok? {
        var (d, st1) := EvalStep(step, st).value;
        if d != 0 && Eval(b, st1).Ok? {
          var (end, st2) := Eval(b, st1).value;
          if Eval(a, st2).Ok? {
            MoreFuelRange(f, g, s, Eval(a, st2).value.0, end, d, Eval(a, st2).value.1);
          }
        }
      }
    case _ =>
  }

  lemma {:induction false} MoreFuelBlock(f: nat, g: nat, ss: seq<Stm>, st: Store)
    requires f <= g && !ExecBlock(f, ss, st).OutOfFuel?
    ensures ExecBlock(g, ss, st) == ExecBlock(f, ss, st)
    decreases f, ss, 0
  {
    if ss != [] {
      MoreFuel(f, g, ss[0], st);
      match Exec(f, ss[0], st)
      case Next(st1) => MoreFuelBlock(f, g, ss[1..], st1);
      case _ =>
    }
  }

  lemma {:induction false} MoreFuelRange(f: nat, g: nat, s: Stm, cur: int, end: int, step: int, st: Store)
    requires s.For? && f <= g && !ExecRange(f, s, cur, end, step, st).OutOfFuel?
    ensures ExecRange(g, s, cur, end, step, st) == ExecRange(f, s, cur, end, step, st)
    decreases f, s, 0
  {
    if f > 0 && InRange(s.ty, step, cur, end) {
      MoreFuelBlock(f, g, s.body, st[s.slot := cur]);
      match ExecBlock(f, s.body, st[s.slot := cur])
      case Next(st1) => MoreFuelRange(f - 1, g - 1, s, ToWord(cur + step), end, step, st1);
      case Continued(st1) => MoreFuelRange(f - 1, g - 1, s, ToWord(cur + step), end, step, st1);
      case _ =>
    }
  }

  // ---------------------------------------------------------------- where control may go

  /** Outside loops the scope check lets no break and no continue escape. */
  lemma {:induction false} NoJump(s: Stm, fr: Frame, pl: Place, fuel: nat, st: Store)
    requires WellTypedStm(s, fr, pl) && !pl.inLoop
    ensures !Exec(fuel, s, st).Broke? && !Exec(fuel, s, st).Continued?
    decreases fuel, s, 1
  {
    hide Eval, EvalRight, WellTyped;
    match s
    case Block(ss) => NoJumpBlock(ss, fr, pl, fuel, st);
    case If(c, thn, els) =>
      if Eval(c, st).Ok? {
        NoJumpBlock(thn, fr, pl, fuel, Eval(c, st).value.1);
        if els.Some? {
          NoJump(els.value, fr, pl, fuel, Eval(c, st).value.1);
        }
      }
    case While(c, body) => LoopAbsorbs(fuel, s, st);
    case For(_, _, a, b, step, _) => LoopAbsorbs(fuel, s, st);
    case _ =>
  }

  lemma {:induction false} NoJumpBlock(ss: seq<Stm>, fr: Frame, pl: Place, fuel: nat, st: Store)
    requires WellTypedBlock(ss, fr, pl) && !pl.inLoop
    ensures !ExecBlock(fuel, ss, st).Broke? && !ExecBlock(fuel, ss, st).Continued?
    decreases fuel, ss, 0
  {
    if ss != [] {
      NoJump(ss[0], fr, pl, fuel, st);
      match Exec(fuel, ss[0], st)
      case Next(st1) => NoJumpBlock(ss[1..], fr, pl, fuel, st1);
      case _ =>
    }
  }

  /** A loop consumes every break and continue of its body. */
  lemma {:induction false} LoopAbsorbs(fuel: nat, s: Stm, st: Store)
    requires s.While? || s.For?
    ensures !Exec(fuel, s, st).Broke? && !Exec(fuel, s, st).Continued?
    decreases fuel
  {
    hide Eval, EvalRight;
    match s
    case While(c, body) =>
      if fuel > 0 && Eval(c, st).Ok? {
        match ExecBlock(fuel, body, Eval(c, st).value.1)
        case Next(st2) => LoopAbsorbs(fuel - 1, s, st2);
        case Continued(st2) => LoopAbsorbs(fuel - 1, s, st2);
        case _ =>
      }
    case For(_, _, a, b, step, _) =>
      if EvalStep(step, st).Ok? {
        var (d, st1) := EvalStep(step, st).value;
        if d != 0 && Eval(b, st1).Ok? {
          var (end, st2) := Eval(b, st1).value;
          if Eval(a, st2).Ok? {
            RangeAbsorbs(fuel, s, Eval(a, st2).value.0, end, d, Eval(a, st2).value.1);
          }
        }
      }
  }

  lemma {:induction false} RangeAbsorbs(fuel: nat, s: Stm, cur: int, end: int, step: int, st: Store)
    requires s.For?
    ensures !ExecRange(fuel, s, cur, end, step, st).Broke? && !ExecRange(fuel, s, cur, end, step, st).Continued?
    decreases fuel
  {
    if fuel > 0 && InRange(s.ty, step, cur, end) {
      match ExecBlock(fuel, s.body, st[s.slot := cur])
      case Next(st1) => RangeAbsorbs(fuel - 1, s, ToWord(cur + step), end, step, st1);
      case Continued(st1) => RangeAbsorbs(fuel - 1, s, ToWord(cur + step), end, step, st1);
      case _ =>
    }
  }

  // ---------------------------------------------------------------- errors

  lemma {:induction false} EvalFaults(e: Expr, st: Store)
    requires Eval(e, st).Err?
    ensures Eval(e, st).fault in {DivisionByZero, Undefined}
  {
    match e
    case Unary(_, x) => EvalFaults(x, st);
    case Binary(op, l, r) =>
      if Eval(l, st).Err? {
        EvalFaults(l, st);
      } else if Eval(r, Eval(l, st).value.1).Err? {
        EvalFaults(r, Eval(l, st).value.1);
      }
    case Ternary(c, t, f) =>
      if Eval(c, st).Err? {
        EvalFaults(c, st);
      } else {
        EvalFaults(if Eval(c, st).value.0 != 0 then t else f, Eval(c, st).value.1);
      }
    case Cast(_, x) => EvalFaults(x, st);
    case _ =>
  }

  // ---------------------------------------------------------------- always returning

  /** The alwaysReturns flag of processStm...: set by a return, by a block holding such a statement, and
      by an if whose two branches both have it. Loops never have it. */
  predicate AlwaysReturns(s: Stm) {
    match s
    case Return(_, _) => true
    case Block(ss) => BlockAlwaysReturns(ss)
    case If(_, thn, els) => els.Some? && BlockAlwaysReturns(thn) && AlwaysReturns(els.value)
    case _ => false
  }

  predicate BlockAlwaysReturns(ss: seq<Stm>) {
    exists i | 0 <= i < |ss| :: AlwaysReturns(ss[i])
  }

  /** A statement with the flag never completes normally. */
  lemma {:induction false} AlwaysReturnsNeverFallsThrough(s: Stm, fuel: nat, st: Store)
    requires AlwaysReturns(s)
    ensures !Exec(fuel, s, st).Next?
    decreases s, 1
  {
    hide Eval, EvalRight;
    match s
    case Block(ss) => BlockNeverFallsThrough(ss, fuel, st);
    case If(c, thn, els) =>
      if Eval(c, st).Ok? {
        BlockNeverFallsThrough(thn, fuel, Eval(c, st).value.1);
        AlwaysReturnsNeverFallsThrough(els.value, fuel, Eval(c, st).value.1);
      }
    case _ =>
  }

  lemma {:induction false} BlockNeverFallsThrough(ss: seq<Stm>, fuel: nat, st: Store)
    requires BlockAlwaysReturns(ss)
    ensures !ExecBlock(fuel, ss, st).Next?
    decreases ss, 0
  {
    if AlwaysReturns(ss[0]) {
      AlwaysReturnsNeverFallsThrough(ss[0], fuel, st);
    } else {
      var i :| 0 <= i < |ss| && AlwaysReturns(ss[i]);
      assert ss[1..][i - 1] == ss[i];
      match Exec(fuel, ss[0], st)
      case Next(st1) => BlockNeverFallsThrough(ss[1..], fuel, st1);
      case _ =>
    }
  }

  /** So the body of a value-returning function, which the analyser accepts only with the flag, can only
      return, raise, or run on: control never reaches the code behind it. */
  lemma {:induction false} FunctionBodyNeverFallsOff(ss: seq<Stm>, fr: Frame, fuel: nat, st: Store)
    requires WellTypedBlock(ss, fr, Place(false, true)) && BlockAlwaysReturns(ss)
    ensures var r := ExecBlock(fuel, ss, st); r.Returned? || r.Raised? || r.OutOfFuel?
  {
    BlockNeverFallsThrough(ss, fuel, st);
    NoJumpBlock(ss, fr, Place(false, true), fuel, st);
  }

  // ---------------------------------------------------------------- turns of a range loop

  /** ceil(a / b) for positive b. */
  function CeilDiv(a: int, b: int): int
    requires b > 0
  {
    (a + b - 1) / b
  }

  /** Turns a range takes: max(0, ceil((end - start) / step)). */
  function Turns(start: int, end: int, step: int): (n: nat)
    requires step != 0
  {
    if step > 0 then Max(0, CeilDiv(end - start, step)) else Max(0, CeilDiv(start - end, -step))
  }

  predicate Representable(t: Type, i: int) {
    if t == TInt then -0x8000_0000 <= i < 0x8000_0000 else IsWord(i)
  }

  /** The reference: the body run `n` times on cur, cur + step, cur + 2 step and so on, whatever the body
      does to the loop variable, until it breaks, returns or raises. */
  function ExecTurns(fuel: nat, s: Stm, cur: int, step: int, n: nat, st: Store): Flow
    requires s.For?
    decreases fuel
  {
    if fuel == 0 then OutOfFuel
    else if n == 0 then Next(st)
    else
      match ExecBlock(fuel, s.body, st[s.slot := ToWord(cur)])
      case Next(st1) => ExecTurns(fuel - 1, s, cur + step, step, n - 1, st1)
      case Continued(st1) => ExecTurns(fuel - 1, s, cur + step, step, n - 1, st1)
      case Broke(st1) => Next(st1)
      case other => other
  }

  lemma {:induction false} TurnsStep(cur: int, end: int, step: int)
    requires step != 0
    ensures Turns(cur, end, step) > 0 <==> (if step > 0 then cur < end else cur > end)
    ensures Turns(cur, end, step) > 0 ==> Turns(cur + step, end, step) == Turns(cur, end, step) - 1
  {
    if step > 0 {
      CeilStep(end - cur, step);
    } else {
      CeilStep(cur - end, -step);
    }
  }

  lemma {:induction false} CeilStep(a: int, b: int)
    requires b > 0
    ensures CeilDiv(a, b) > 0 <==> a > 0
    ensures CeilDiv(a - b, b) == CeilDiv(a, b) - 1
  {
    var q, r := (a + b - 1) / b, (a + b - 1) % b;
    assert a - b + b - 1 == (q - 1) * b + r;
    ModUnique(a - 1, b, q - 1, r);
    MulGrows(q, b);
  }

  lemma {:induction false} KeyOfWord(t: Type, i: int)
    requires Representable(t, i)
    ensures IsWord(ToWord(i)) && Key(t, ToWord(i)) == i
  {
  }

  /** Unless the value after the last turn overflows the variable's type, a range loop is its turns:
      start, start + step, ..., strictly before end. */
  lemma {:induction false} RangeIsTurns(fuel: nat, s: Stm, cur: int, end: int, step: int, st: Store)
    requires s.For? && IsNumeric(s.ty) && step != 0
    requires Representable(s.ty, cur) && Representable(s.ty, end) && Representable(s.ty, step)
    requires Representable(s.ty, cur + Turns(cur, end, step) * step)
    ensures ExecRange(fuel, s, ToWord(cur), ToWord(end), ToWord(step), st)
      == ExecTurns(fuel, s, cur, step, Turns(cur, end, step), st)
    decreases fuel
  {
    hide ExecBlock, CeilDiv, Turns, ToWord, Representable;
    KeyOfWord(s.ty, cur);
    KeyOfWord(s.ty, end);
    KeyOfWord(s.ty, step);
    TurnsStep(cur, end, step);
    var n := Turns(cur, end, step);
    if fuel > 0 && n > 0 {
      assert (cur + step) + (n - 1) * step == cur + n * step;
      NextRepresentable(s.ty, cur, n, step);
      AddWords(cur, step);
      match ExecBlock(fuel, s.body, st[s.slot := ToWord(cur)])
      case Next(st1) => RangeIsTurns(fuel - 1, s, cur + step, end, step, st1);
      case Continued(st1) => RangeIsTurns(fuel - 1, s, cur + step, end, step, st1);
      case _ =>
    }
  }

  lemma {:induction false} AddWords(a: int, b: int)
    ensures ToWord(ToWord(a) + ToWord(b)) == ToWord(a + b)
  {
  }

  lemma {:induction false} NextRepresentable(t: Type, cur: int, n: nat, step: int)
    requires n > 0 && Representable(t, cur) && Representable(t, cur + n * step)
    ensures Representable(t, cur + step)
  {
    var rest := (n - 1) * step;
    assert n * step == step + rest;
    if step >= 0 {
      assert rest >= 0;
    } else {
      assert rest <= 0;
    }
  }

  /** The condition is exact: when the value after the last turn overflows, the wrapped value is again
      before the end and the loop takes one turn more. */
  lemma {:induction false} RangeWraps(t: Type, cur: int, end: int, step: int)
    requires IsNumeric(t) && step != 0 && Representable(t, cur) && Representable(t, end) && Representable(t, step)
    requires !Representable(t, cur + Turns(cur, end, step) * step)
    ensures InRange(t, ToWord(step), ToWord(cur + Turns(cur, end, step) * step), ToWord(end))
  {
    hide Turns;
    var n := Turns(cur, end, step);
    var last := cur + n * step;
    KeyOfWord(t, end);
    KeyOfWord(t, step);
    if n == 0 {
      assert false;
    } else if step > 0 {
      LastTurn(cur, end, step);
      Overflows(t, last, end, step);
    } else {
      TurnsMirrored(cur, end, step);
      LastTurn(-cur, -end, -step);
      assert n * step == -(n * -step);
      Overflows(t, last, end, step);
    }
  }

  lemma {:induction false} TurnsMirrored(cur: int, end: int, step: int)
    requires step != 0
    ensures Turns(-cur, -end, -step) == Turns(cur, end, step)
  {
  }

  /** A value that has just passed the end and left its type comes back on the other side of the end. */
  lemma {:induction false} Overflows(t: Type, last: int, end: int, step: int)
    requires IsNumeric(t) && step != 0 && Representable(t, end) && Representable(t, step) && !Representable(t, last)
    requires if step > 0 then end <= last < end + step else end + step < last <= end
    ensures InRange(t, ToWord(step), ToWord(last), ToWord(end))
  {
    KeyOfWord(t, end);
    KeyOfWord(t, step);
  }

  lemma {:induction false} LastTurn(cur: int, end: int, step: int)
    requires step > 0 && Turns(cur, end, step) > 0
    ensures end <= cur + Turns(cur, end, step) * step < end + step
  {
    var a := end - cur;
    var q, r := (a + step - 1) / step, (a + step - 1) % step;
    assert a + step - 1 == q * step + r;
  }
}
