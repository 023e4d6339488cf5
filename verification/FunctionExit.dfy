/** Control never leaves the code of a user function but by `ret` or an error. */
module FunctionExit {
  import opened Words
  import opened Isa
  import opened Machine
  import opened Accesses
  import opened Source
  import opened SourceLaws
  import opened Domain
  import opened CodeGen
  import opened Cursor
  import opened Simulation
  import opened StmSimulation
  import opened Program

  /** The same machine with nothing to fetch outside [lo, hi) and no method to call. */
  function Restrict(code: Code, lo: int, hi: int): Code {
    Code(map a | a in code.ops && lo <= a < hi :: code.ops[a], map[])
  }

  lemma {:induction false} LoadedRestricted(im: Image, at: int, a: Asm, lo: int, hi: int)
    requires Loaded(im, at, a) && lo <= at && at + Length(a) <= hi
    ensures Loaded(Image(Restrict(im.code, lo, hi), im.labels), at, a)
    decreases a
  {
    match a
    case Done =>
    case Ins(i, rest) => LoadedRestricted(im, at + Size(i), rest, lo, hi);
    case Def(_, rest) => LoadedRestricted(im, at, rest, lo, hi);
    case Seq(first, rest) =>
      LoadedRestricted(im, at, first, lo, hi);
      LoadedRestricted(im, at + Length(first), rest, lo, hi);
  }

  predicate Inside(s: State, lo: int, hi: int) {
    s.status == Running ==> lo <= s.pc < hi
  }

  lemma {:induction false} StepAgrees(code: Code, lo: int, hi: int, s: State)
    requires Step(Restrict(code, lo, hi), s).status != Failed(Unmodelled)
    ensures Step(code, s) == Step(Restrict(code, lo, hi), s) && Inside(s, lo, hi)
  {
    hide ExecArith, ExecAlloc, ExecFree, ExecLoad, ExecLoadG, ExecLoadL, ExecStore, ExecStoreB, ExecStoreG, ExecStoreL,
      ExecAddrL, ExecRet, ExecThrow, ExecRotD, ExecRotU, ExecSwap, ExecLoadB, ExecBranch, Push1, PushOutcome;
  }

  /** As long as the restricted machine does not miss an instruction, the machine runs as it does, and stays
      inside. */
  lemma {:induction false} RunAgrees(code: Code, lo: int, hi: int, t: State, k: nat, j: nat)
    requires j <= k && Run(Restrict(code, lo, hi), t, k).status != Failed(Unmodelled)
    ensures Run(code, t, j) == Run(Restrict(code, lo, hi), t, j)
    ensures j < k ==> Inside(Run(code, t, j), lo, hi)
    decreases k
  {
    hide Step, Restrict;
    var r := Restrict(code, lo, hi);
    if k > 0 {
      if Step(r, t).status == Failed(Unmodelled) {
        Stays(r, Step(r, t), k - 1);
      }
      StepAgrees(code, lo, hi, t);
      if j > 0 {
        RunAgrees(code, lo, hi, Step(code, t), k - 1, j - 1);
      }
    }
  }

  // ---------------------------------------------------------------- errors of statements

  lemma {:induction false} RightFaults(op: BinOp, a: int, e: Expr, st: Store)
    requires IsWord(a) && EvalRight(op, a, e, st).Err?
    ensures EvalRight(op, a, e, st).fault in {DivisionByZero, Undefined}
  {
    if Eval(e, st).Err? {
      EvalFaults(e, st);
    }
  }

  /** Statements raise arithmetic errors and zero steps only. */
  lemma {:induction false} StmFaults(fuel: nat, s: Stm, st: Store)
    requires Exec(fuel, s, st).Raised?
    ensures Exec(fuel, s, st).fault in {DivisionByZero, Undefined, ZeroStep}
    decreases fuel, s, 2
  {
    hide Eval, EvalRight;
    match s
    case VarDecl(_, _, init) => EvalFaults(init.value, st);
    case Assign(_, _, e) => EvalFaults(e, st);
    case OpAssign(slot, _, op, e) => RightFaults(op, Fetch(st, slot), e, st);
    case Block(ss) => BlockFaults(fuel, ss, st);
    case If(c, thn, els) =>
      if Eval(c, st).Err? {
        EvalFaults(c, st);
      } else if Eval(c, st).value.0 != 0 {
        BlockFaults(fuel, thn, Eval(c, st).value.1);
      } else {
        StmFaults(fuel, els.value, Eval(c, st).value.1);
      }
    case While(c, ss) =>
      if Eval(c, st).Err? {
        EvalFaults(c, st);
      } else {
        var r := ExecBlock(fuel, ss, Eval(c, st).value.1);
        if r.Raised? {
          BlockFaults(fuel, ss, Eval(c, st).value.1);
        } else {
          StmFaults(fuel - 1, s, r.st);
        }
      }
    case For(_, _, a, b, step, _) => ForFaults(fuel, s, st);
    case Return(e, _) => EvalFaults(e.value, st);
  }

  lemma {:induction false} ForFaults(fuel: nat, s: Stm, st: Store)
    requires s.For? && Exec(fuel, s, st).Raised?
    ensures Exec(fuel, s, st).fault in {DivisionByZero, Undefined, ZeroStep}
    decreases fuel, s, 1
  {
    hide Eval, ExecRange;
    if s.step.Some? && Eval(s.step.value, st).Err? {
      EvalFaults(s.step.value, st);
    } else {
      var (d, st1) := EvalStep(s.step, st).value;
      if d != 0 {
        if Eval(s.end, st1).Err? {
          EvalFaults(s.end, st1);
        } else {
          var (end, st2) := Eval(s.end, st1).value;
          if Eval(s.start, st2).Err? {
            EvalFaults(s.start, st2);
          } else {
            RangeFaults(fuel, s, Eval(s.start, st2).value.0, end, d, Eval(s.start, st2).value.1);
          }
        }
      }
    }
  }

  lemma {:induction false} RangeFaults(fuel: nat, s: Stm, cur: int, end: int, step: int, st: Store)
    requires s.For? && ExecRange(fuel, s, cur, end, step, st).Raised?
    ensures ExecRange(fuel, s, cur, end, step, st).fault in {DivisionByZero, Undefined, ZeroStep}
    decreases fuel, s, 0
  {
    hide InRange;
    var r := ExecBlock(fuel, s.body, st[s.slot := cur]);
    if r.Raised? {
      BlockFaults(fuel, s.body, st[s.slot := cur]);
    } else {
      RangeFaults(fuel - 1, s, ToWord(cur + step), end, step, r.st);
    }
  }

  lemma {:induction false} BlockFaults(fuel: nat, ss: seq<Stm>, st: Store)
    requires ExecBlock(fuel, ss, st).Raised?
    ensures ExecBlock(fuel, ss, st).fault in {DivisionByZero, Undefined, ZeroStep}
    decreases fuel, ss, 0
  {
    hide Exec;
    if Exec(fuel, ss[0], st).Raised? {
      StmFaults(fuel, ss[0], st);
    } else {
      BlockFaults(fuel, ss[1..], Exec(fuel, ss[0], st).st);
    }
  }

  // ---------------------------------------------------------------- the theorem

  ghost predicate ReachedRet(code: Code, t: State, lo: int, hi: int, j: nat) {
    exists i: nat :: i <= j && AtRet(code, Run(code, t, i), lo, hi)
  }

  predicate AtRet(code: Code, s: State, lo: int, hi: int) {
    s.status == Running && lo <= s.pc < hi && s.pc in code.ops && code.ops[s.pc] == Ret
  }

  /** What the analyser demands of the body of a function: a value-returning one always returns. */
  predicate BodyAccepted(ss: seq<Stm>, isVoid: bool, fr: Frame) {
    WellTypedBlock(ss, fr, Place(false, true)) && (isVoid || BlockAlwaysReturns(ss))
  }

  /** A state the restricted machine reaches when the body ends, or late enough. */
  ghost predicate Reached(code: Code, t: State, n: nat, fuel: nat) {
    var u := Run(code, t, n);
    || (u.status.Failed? && u.status != Failed(Unmodelled))
    || (u.status == Running && (n >= fuel || (u.pc in code.ops && code.ops[u.pc] == Ret)))
  }

  lemma {:induction false} RestrictedRun(im: Image, t: State, ss: seq<Stm>, isVoid: bool, k: nat, end: int, fr: Frame,
          st: Store, fuel: nat)
    returns (n: nat)
    requires t.status == Running && Spans(im, t.pc, FunctionCode(ss, isVoid, k), end)
    requires BodyAccepted(ss, isVoid, fr) && SoundBlock(ss, fr) && Represented(t, fr, st)
    requires |t.stack| + NeedBlock(ss) <= MAX_OPERANDS
    ensures Reached(im.code, t, n, fuel)
  {
    hide Run, Step, Loaded, Length, Represented, ExecBlock, WellTypedStm, SoundStm, CodeBlock, Keeps;
    var pl := Place(false, true);
    var body := CodeBlock(ss, k, NoLoop);
    var mid := if isVoid then t.pc + Length(body) else end;
    if isVoid {
      SpansSeq(im, t.pc, body, Ins(Ret, Done), end);
    }
    ReachesSelf(im.code, t);
    var u := SimBlock(im, t, 0, t, ss, k, mid, fr, pl, NoLoop, fuel, st);
    var r := ExecBlock(fuel, ss, st);
    NoJumpBlock(ss, fr, pl, fuel, st);
    if !isVoid {
      FunctionBodyNeverFallsOff(ss, fr, fuel, st);
    }
    if r.Raised? {
      BlockFaults(fuel, ss, st);
    }
    if r.Next? {
      RetLoaded(im, mid, end);
    }
    n :| Run(im.code, t, n) == u && (r.OutOfFuel? ==> n >= fuel);
  }

  lemma {:induction false} RetLoaded(im: Image, at: int, end: int)
    requires Spans(im, at, Ins(Ret, Done), end)
    ensures at in im.code.ops && im.code.ops[at] == Ret
  {
  }

  /** After any number of steps from the start of a function's code, the machine has reached a `ret` of the
      function, has stopped with an error, or is still at an instruction of the function. It never runs at the
      end of the code. */
  lemma {:induction false} NeverFallsOff(im: Image, t: State, ss: seq<Stm>, isVoid: bool, k: nat, end: int, fr: Frame,
          st: Store, j: nat)
    requires t.status == Running && Spans(im, t.pc, FunctionCode(ss, isVoid, k), end)
    requires BodyAccepted(ss, isVoid, fr) && SoundBlock(ss, fr) && Represented(t, fr, st)
    requires |t.stack| + NeedBlock(ss) <= MAX_OPERANDS
    ensures var u := Run(im.code, t, j);
      ReachedRet(im.code, t, t.pc, end, j) || u.status.Failed? || (u.status == Running && t.pc <= u.pc < end)
  {
    hide Run, Step, Loaded, Length, Represented, Exec, WellTypedStm, SoundStm, CodeBlock, FunctionCode, BodyAccepted;
    var code := Restrict(im.code, t.pc, end);
    LoadedRestricted(im, t.pc, FunctionCode(ss, isVoid, k), t.pc, end);
    var n := RestrictedRun(Image(code, im.labels), t, ss, isVoid, k, end, fr, st, j + 1);
    if j < n {
      RunAgrees(im.code, t.pc, end, t, n, j);
      if Run(code, t, j).status != Running {
        StoppedStays(code, t, j, n);
      }
    } else {
      RunAgrees(im.code, t.pc, end, t, n, n);
      if Run(code, t, n).status == Running {
        assert AtRet(im.code, Run(im.code, t, n), t.pc, end);
      } else {
        StoppedStays(im.code, t, n, j);
      }
    }
  }
}
