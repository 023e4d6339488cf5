/** The analyser's alwaysReturns flag against the paths through a statement: a path decides every condition, and
    every turn of a loop, either way. */
module ReturnPaths {
  import opened Words
  import opened Source
  import opened SourceLaws

  /** How a path leaves a statement; Undecided when it has run out of decisions. */
  datatype Exit = Falls | Breaks | Continues | Returns | Undecided

  /** The path that takes the given decisions, and the decisions that are left over. Either jumps leave a loop, or,
      as the analyser has it, control goes on behind them. */
  function Walk(s: Stm, cs: seq<bool>, jumps: bool): (r: (Exit, seq<bool>))
    ensures |r.1| <= |cs|
    decreases |cs|, s, 1
  {
    match s
    case Block(ss) => WalkBlock(ss, cs, jumps)
    case If(_, thn, els) =>
      if cs == [] then (Undecided, [])
      else if cs[0] then WalkBlock(thn, cs[1..], jumps)
      else if els.Some? then Walk(els.value, cs[1..], jumps)
      else (Falls, cs[1..])
    case While(_, body) => WalkLoop(s, body, cs, jumps)
    case For(_, _, _, _, _, body) => WalkLoop(s, body, cs, jumps)
    case Break => (if jumps then Breaks else Falls, cs)
    case Continue => (if jumps then Continues else Falls, cs)
    case Return(_, _) => (Returns, cs)
    case _ => (Falls, cs)
  }

  function WalkLoop(s: Stm, body: seq<Stm>, cs: seq<bool>, jumps: bool): (r: (Exit, seq<bool>))
    requires (s.While? && body == s.body) || (s.For? && body == s.body)
    ensures |r.1| <= |cs|
    decreases |cs|, s, 0
  {
    if cs == [] then (Undecided, [])
    else if !cs[0] then (Falls, cs[1..])
    else
      var (exit, rest) := WalkBlock(body, cs[1..], jumps);
      if exit == Falls || exit == Continues then WalkLoop(s, body, rest, jumps)
      else if exit == Breaks then (Falls, rest)
      else (exit, rest)
  }

  function WalkBlock(ss: seq<Stm>, cs: seq<bool>, jumps: bool): (r: (Exit, seq<bool>))
    ensures |r.1| <= |cs|
    decreases |cs|, ss, 0
  {
    if ss == [] then (Falls, cs)
    else
      var (exit, rest) := Walk(ss[0], cs, jumps);
      if exit == Falls then WalkBlock(ss[1..], rest, jumps) else (exit, rest)
  }

  // ---------------------------------------------------------------- runs follow paths

  /** More decisions than a path needs are left over. */
  lemma {:induction false} WalkMore(s: Stm, cs: seq<bool>, more: seq<bool>, jumps: bool)
    requires !Walk(s, cs, jumps).0.Undecided?
    ensures var (exit, rest) := Walk(s, cs, jumps); Walk(s, cs + more, jumps) == (exit, rest + more)
    decreases |cs|, s, 1
  {
    match s
    case Block(ss) => WalkMoreBlock(ss, cs, more, jumps);
    case If(_, thn, els) =>
      assert (cs + more)[1..] == cs[1..] + more;
      if cs[0] {
        WalkMoreBlock(thn, cs[1..], more, jumps);
      } else if els.Some? {
        WalkMore(els.value, cs[1..], more, jumps);
      }
    case While(_, body) => WalkMoreLoop(s, body, cs, more, jumps);
    case For(_, _, _, _, _, body) => WalkMoreLoop(s, body, cs, more, jumps);
    case _ =>
  }

  lemma {:induction false} WalkMoreLoop(s: Stm, body: seq<Stm>, cs: seq<bool>, more: seq<bool>, jumps: bool)
    requires (s.While? && body == s.body) || (s.For? && body == s.body)
    requires !WalkLoop(s, body, cs, jumps).0.Undecided?
    ensures var (exit, rest) := WalkLoop(s, body, cs, jumps);
      WalkLoop(s, body, cs + more, jumps) == (exit, rest + more)
    decreases |cs|, s, 0
  {
    assert (cs + more)[1..] == cs[1..] + more;
    if cs[0] {
      WalkMoreBlock(body, cs[1..], more, jumps);
      var (exit, rest) := WalkBlock(body, cs[1..], jumps);
      if exit == Falls || exit == Continues {
        WalkMoreLoop(s, body, rest, more, jumps);
      }
    }
  }

  lemma {:induction false} WalkMoreBlock(ss: seq<Stm>, cs: seq<bool>, more: seq<bool>, jumps: bool)
    requires !WalkBlock(ss, cs, jumps).0.Undecided?
    ensures var (exit, rest) := WalkBlock(ss, cs, jumps); WalkBlock(ss, cs + more, jumps) == (exit, rest + more)
    decreases |cs|, ss, 0
  {
    if ss != [] {
      WalkMore(ss[0], cs, more, jumps);
      var (exit, rest) := Walk(ss[0], cs, jumps);
      if exit == Falls {
        WalkMoreBlock(ss[1..], rest, more, jumps);
      }
    }
  }

  /** The exit that an outcome stands for; errors and unfinished runs are none. */
  function ExitOf(r: Flow): Exit {
    match r
    case Next(_) => Falls
    case Broke(_) => Breaks
    case Continued(_) => Continues
    case Returned(_, _, _) => Returns
    case _ => Undecided
  }

  /** Every run that ends without an error takes one of the paths. */
  lemma {:induction false} RunsArePaths(fuel: nat, s: Stm, st: Store) returns (cs: seq<bool>)
    requires !ExitOf(Exec(fuel, s, st)).Undecided?
    ensures Walk(s, cs, true) == (ExitOf(Exec(fuel, s, st)), [])
    decreases fuel, s, 1
  {
    hide Eval, EvalRight;
    cs := [];
    match s
    case Block(ss) => cs := BlockRunsArePaths(fuel, ss, st);
    case If(c, thn, els) =>
      var (w, st1) := Eval(c, st).value;
      if w != 0 {
        cs := BlockRunsArePaths(fuel, thn, st1);
        assert ([true] + cs)[1..] == cs;
        cs := [true] + cs;
      } else if els.Some? {
        cs := RunsArePaths(fuel, els.value, st1);
        assert ([false] + cs)[1..] == cs;
        cs := [false] + cs;
      } else {
        cs := [false];
      }
    case While(c, body) =>
      var (w, st1) := Eval(c, st).value;
      if w == 0 {
        cs := [false];
      } else {
        var turn := BlockRunsArePaths(fuel, body, st1);
        var r := ExecBlock(fuel, body, st1);
        var rest := [];
        if r.Next? || r.Continued? {
          rest := RunsArePaths(fuel - 1, s, r.st);
        }
        cs := OneTurn(s, body, turn, rest);
      }
    case For(_, _, a, b, step, body) =>
      var (d, st1) := EvalStep(step, st).value;
      var (end, st2) := Eval(b, st1).value;
      var (cur, st3) := Eval(a, st2).value;
      cs := RangeRunsArePaths(fuel, s, cur, end, d, st3);
    case _ =>
  }

  /** A turn of a loop and what follows it. */
  lemma {:induction false} OneTurn(s: Stm, body: seq<Stm>, turn: seq<bool>, rest: seq<bool>) returns (cs: seq<bool>)
    requires (s.While? && body == s.body) || (s.For? && body == s.body)
    requires WalkBlock(body, turn, true).1 == [] && !WalkBlock(body, turn, true).0.Undecided?
    ensures var exit := WalkBlock(body, turn, true).0;
      WalkLoop(s, body, cs, true) ==
        if exit == Falls || exit == Continues then WalkLoop(s, body, rest, true)
        else (if exit == Breaks then Falls else exit, rest)
  {
    WalkMoreBlock(body, turn, rest, true);
    cs := [true] + (turn + rest);
    assert cs[1..] == turn + rest && [] + rest == rest;
  }

  lemma {:induction false} RangeRunsArePaths(fuel: nat, s: Stm, cur: int, end: int, step: int, st: Store)
    returns (cs: seq<bool>)
    requires s.For? && !ExitOf(ExecRange(fuel, s, cur, end, step, st)).Undecided?
    ensures WalkLoop(s, s.body, cs, true) == (ExitOf(ExecRange(fuel, s, cur, end, step, st)), [])
    decreases fuel, s, 0
  {
    hide InRange;
    if !InRange(s.ty, step, cur, end) {
      cs := [false];
    } else {
      var turn := BlockRunsArePaths(fuel, s.body, st[s.slot := cur]);
      var r := ExecBlock(fuel, s.body, st[s.slot := cur]);
      var rest := [];
      if r.Next? || r.Continued? {
        rest := RangeRunsArePaths(fuel - 1, s, ToWord(cur + step), end, step, r.st);
      }
      cs := OneTurn(s, s.body, turn, rest);
    }
  }

  lemma {:induction false} BlockRunsArePaths(fuel: nat, ss: seq<Stm>, st: Store) returns (cs: seq<bool>)
    requires !ExitOf(ExecBlock(fuel, ss, st)).Undecided?
    ensures WalkBlock(ss, cs, true) == (ExitOf(ExecBlock(fuel, ss, st)), [])
    decreases fuel, ss, 0
  {
    cs := [];
    if ss != [] {
      cs := RunsArePaths(fuel, ss[0], st);
      match Exec(fuel, ss[0], st)
      case Next(st1) =>
        var rest := BlockRunsArePaths(fuel, ss[1..], st1);
        WalkMore(ss[0], cs, rest, true);
        assert [] + rest == rest;
        cs := cs + rest;
      case _ =>
    }
  }

  // ---------------------------------------------------------------- the flag

  lemma {:induction false} NeverFalls(s: Stm, cs: seq<bool>, jumps: bool)
    requires AlwaysReturns(s)
    ensures !Walk(s, cs, jumps).0.Falls?
    decreases s, 1
  {
    match s
    case Block(ss) => BlockNeverFalls(ss, cs, jumps);
    case If(_, thn, els) =>
      if cs != [] {
        BlockNeverFalls(thn, cs[1..], jumps);
        NeverFalls(els.value, cs[1..], jumps);
      }
    case _ =>
  }

  lemma {:induction false} BlockNeverFalls(ss: seq<Stm>, cs: seq<bool>, jumps: bool)
    requires BlockAlwaysReturns(ss)
    ensures !WalkBlock(ss, cs, jumps).0.Falls?
    decreases ss, 0
  {
    if AlwaysReturns(ss[0]) {
      NeverFalls(ss[0], cs, jumps);
    } else {
      var i :| 0 <= i < |ss| && AlwaysReturns(ss[i]);
      assert ss[1..][i - 1] == ss[i];
      BlockNeverFalls(ss[1..], Walk(ss[0], cs, jumps).1, jumps);
    }
  }

  /** Without the flag there is a path that comes out at the end or, where jumps count, by a jump: it enters no
      loop. */
  lemma {:induction false} WayOut(s: Stm, jumps: bool) returns (cs: seq<bool>)
    requires !AlwaysReturns(s)
    ensures var (exit, rest) := Walk(s, cs, jumps);
      rest == [] && (exit == Falls || (jumps && (exit == Breaks || exit == Continues)))
    decreases s, 1
  {
    cs := [];
    match s
    case Block(ss) => cs := BlockWayOut(ss, jumps);
    case If(_, thn, els) =>
      if !BlockAlwaysReturns(thn) {
        cs := BlockWayOut(thn, jumps);
        assert ([true] + cs)[1..] == cs;
        cs := [true] + cs;
      } else if els.Some? {
        cs := WayOut(els.value, jumps);
        assert ([false] + cs)[1..] == cs;
        cs := [false] + cs;
      } else {
        cs := [false];
      }
    case While(_, _) => cs := [false];
    case For(_, _, _, _, _, _) => cs := [false];
    case _ =>
  }

  lemma {:induction false} BlockWayOut(ss: seq<Stm>, jumps: bool) returns (cs: seq<bool>)
    requires !BlockAlwaysReturns(ss)
    ensures var (exit, rest) := WalkBlock(ss, cs, jumps);
      rest == [] && (exit == Falls || (jumps && (exit == Breaks || exit == Continues)))
    decreases ss, 0
  {
    cs := [];
    if ss != [] {
      cs := WayOut(ss[0], jumps);
      if Walk(ss[0], cs, jumps).0 == Falls {
        assert forall i | 0 <= i < |ss| - 1 :: ss[1..][i] == ss[i + 1];
        var rest := BlockWayOut(ss[1..], jumps);
        WalkMore(ss[0], cs, rest, jumps);
        assert [] + rest == rest;
        cs := cs + rest;
      }
    }
  }

  /** The flag says exactly that every path that gets to an end returns, when control is taken to go on behind
      break and continue. */
  lemma {:induction false} AlwaysReturnsExact(s: Stm)
    ensures AlwaysReturns(s) <==> forall cs :: !Walk(s, cs, false).0.Falls?
  {
    if AlwaysReturns(s) {
      forall cs
        ensures !Walk(s, cs, false).0.Falls?
      {
        NeverFalls(s, cs, false);
      }
    } else {
      var cs := WayOut(s, false);
    }
  }

  /** Outside loops no path of an accepted statement jumps out. */
  lemma {:induction false} StaysIn(s: Stm, fr: Frame, pl: Place, cs: seq<bool>)
    requires WellTypedStm(s, fr, pl) && !pl.inLoop
    ensures !Walk(s, cs, true).0.Breaks? && !Walk(s, cs, true).0.Continues?
    decreases |cs|, s, 1
  {
    hide WellTyped;
    match s
    case Block(ss) => BlockStaysIn(ss, fr, pl, cs);
    case If(_, thn, els) =>
      if cs != [] {
        BlockStaysIn(thn, fr, pl, cs[1..]);
        if els.Some? {
          StaysIn(els.value, fr, pl, cs[1..]);
        }
      }
    case While(_, body) => LoopStaysIn(s, body, cs);
    case For(_, _, _, _, _, body) => LoopStaysIn(s, body, cs);
    case _ =>
  }

  lemma {:induction false} LoopStaysIn(s: Stm, body: seq<Stm>, cs: seq<bool>)
    requires (s.While? && body == s.body) || (s.For? && body == s.body)
    ensures !WalkLoop(s, body, cs, true).0.Breaks? && !WalkLoop(s, body, cs, true).0.Continues?
    decreases |cs|
  {
    if cs != [] && cs[0] {
      LoopStaysIn(s, body, WalkBlock(body, cs[1..], true).1);
    }
  }

  lemma {:induction false} BlockStaysIn(ss: seq<Stm>, fr: Frame, pl: Place, cs: seq<bool>)
    requires WellTypedBlock(ss, fr, pl) && !pl.inLoop
    ensures !WalkBlock(ss, cs, true).0.Breaks? && !WalkBlock(ss, cs, true).0.Continues?
    decreases |cs|, ss, 0
  {
    if ss != [] {
      StaysIn(ss[0], fr, pl, cs);
      BlockStaysIn(ss[1..], fr, pl, Walk(ss[0], cs, true).1);
    }
  }

  /** So the analyser refuses the body of a value-returning function exactly when one of its paths comes out at
      the end. */
  lemma {:induction false} BodyExact(ss: seq<Stm>, fr: Frame)
    requires WellTypedBlock(ss, fr, Place(false, true))
    ensures BlockAlwaysReturns(ss) <==> forall cs :: !WalkBlock(ss, cs, true).0.Falls?
  {
    if BlockAlwaysReturns(ss) {
      forall cs
        ensures !WalkBlock(ss, cs, true).0.Falls?
      {
        BlockNeverFalls(ss, cs, true);
      }
    } else {
      var cs := BlockWayOut(ss, true);
      BlockStaysIn(ss, fr, Place(false, true), cs);
    }
  }

  /** `break; return 1;` has the flag, although its only path breaks out: the flag knows nothing of jumps. */
  lemma {:induction false} JumpBeforeReturn()
    ensures var s := Block([Break, Return(Some(IntLit(1)), TInt)]);
      AlwaysReturns(s) && forall cs :: Walk(s, cs, true) == (Breaks, cs)
  {
    var ss := [Break, Return(Some(IntLit(1)), TInt)];
    assert AlwaysReturns(ss[1]);
    assert BlockAlwaysReturns(ss);
    forall cs
      ensures Walk(Block(ss), cs, true) == (Breaks, cs)
    {
      assert Walk(ss[0], cs, true) == (Breaks, cs);
    }
  }
}
