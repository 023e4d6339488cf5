/** Programs with user functions: their code follows that of the scope functions, and the assembler accepts it
    exactly when no function contains a range loop. */
module UserFunctions {
  import opened Isa
  import opened Source
  import opened CodeGen
  import opened Labelling
  import opened Assembler
  import opened EndToEnd

  /** The analyser admits no two functions of one name. */
  predicate DistinctNames(fs: seq<FunctionDecl>) {
    forall i, j | 0 <= i < j < |fs| :: fs[i].name != fs[j].name
  }

  function StatementsWith(ms: seq<ScopeMethod>, fs: seq<FunctionDecl>): seq<Statement> {
    AsCode(ProgramItems(ms, fs, |fs|))
  }

  /** What the first pass of the assembler demands. */
  predicate PassesFirst(ss: seq<Statement>) {
    NoRedefinition(ss) && Refs(ss) <= Table(ss).Keys
  }

  predicate NoRangeLoop(f: FunctionDecl) {
    RangesOfBlock(f.body) == []
  }

  // ---------------------------------------------------------------- without range loops

  function NameLabels(fs: seq<FunctionDecl>, i: nat): set<Label>
    requires i <= |fs|
  {
    if i == 0 then {} else NameLabels(fs, i - 1) + {MethodLabel(Function(fs[i - 1].name))}
  }

  lemma {:induction false} InNameLabels(fs: seq<FunctionDecl>, i: nat, l: Label)
    requires i <= |fs| && l in NameLabels(fs, i)
    ensures l.MethodLabel? && l.owner.Function? && exists j | 0 <= j < i :: fs[j].name == l.owner.name
  {
    if l in NameLabels(fs, i - 1) {
      InNameLabels(fs, i - 1, l);
    }
  }

  lemma {:induction false} DeclTidy(f: FunctionDecl, n: nat, next: nat)
    requires NoRangeLoop(f)
    ensures Tidy(DeclCode(f, n, next), n, n + LabelsInBlock(f.body, false), {})
    ensures LabelsInBlock(f.body, false) == LabelsOfBlock(f.body)
  {
    hide AllEncodable, DefSet, RefSet, Distinct, CodeBlock, BlockCode, LabelsInBlock, LabelsOfBlock;
    SameBlock(f.body, n, Registered(next), NoLoop);
    TidyBlock(f.body, n, NoLoop);
    Unfolding();
  }

  /** All method labels and those of the first i functions are defined, and only labels of code besides. */
  lemma {:induction false} FunctionsUpTo(ms: seq<ScopeMethod>, fs: seq<FunctionDecl>, i: nat)
    returns (codes: set<Label>, refs: set<Label>, length: nat)
    requires i <= |fs| && DistinctNames(fs) && forall j | 0 <= j < |fs| :: NoRangeLoop(fs[j])
    ensures EndToEnd.Accepted(AsCode(ProgramItems(ms, fs, i)), MethodLabels(|ms|) + NameLabels(fs, i) + codes, refs,
      length)
    ensures Within(codes, 0, CounterAt(ms, |ms|) + LabelsBefore(fs, i)) && refs <= codes + MethodLabels(|ms|)
  {
    hide EndToEnd.Accepted, DeclCode, Within, GlobalCode, ItemsUpTo, CodeStm, DeclItems;
    codes, refs, length := AcceptedUpTo(ms, |ms|);
    if i == 0 {
      assert MethodLabels(|ms|) + NameLabels(fs, 0) + codes == MethodLabels(|ms|) + codes;
    } else {
      codes, refs, length := FunctionsUpTo(ms, fs, i - 1);
      codes, refs, length := NextFunction(ms, fs, i - 1, codes, refs, length);
    }
  }

  lemma {:induction false} NextFunction(ms: seq<ScopeMethod>, fs: seq<FunctionDecl>, i: nat, codes: set<Label>,
          refs: set<Label>, length: nat)
    returns (codes': set<Label>, refs': set<Label>, length': nat)
    requires i < |fs| && DistinctNames(fs) && NoRangeLoop(fs[i])
    requires EndToEnd.Accepted(AsCode(ProgramItems(ms, fs, i)), MethodLabels(|ms|) + NameLabels(fs, i) + codes, refs,
      length)
    requires Within(codes, 0, CounterAt(ms, |ms|) + LabelsBefore(fs, i)) && refs <= codes + MethodLabels(|ms|)
    ensures EndToEnd.Accepted(AsCode(ProgramItems(ms, fs, i + 1)), MethodLabels(|ms|) + NameLabels(fs, i + 1) + codes',
      refs',
      length')
    ensures Within(codes', 0, CounterAt(ms, |ms|) + LabelsBefore(fs, i + 1)) && refs' <= codes' + MethodLabels(|ms|)
  {
    hide EndToEnd.Accepted, DeclCode, Flatten, Length, LabelsInBlock;
    var f, n, next := fs[i], CounterAt(ms, |ms|) + LabelsBefore(fs, i), |ms| + RangesBefore(fs, i);
    var ss, l, code := AsCode(ProgramItems(ms, fs, i)), MethodLabel(Function(f.name)), DeclCode(f, n, next);
    var header := MethodDef(l, f.args, f.locals);
    var defs := MethodLabels(|ms|) + NameLabels(fs, i) + codes;
    DeclTidy(f, n, next);
    NewName(ms, fs, i, codes, n);
    AddOne(ss, header, defs, refs, length);
    forall x | x in DefSet(code)
      ensures x !in defs + {l}
    {
      InMethodLabels(|ms|, x);
      if x in NameLabels(fs, i) {
        InNameLabels(fs, i, x);
      }
    }
    AddCode(ss + [Statement.Code(header)], code, defs + {l}, refs + {}, length + 5);
    Reassociate(ss, [header], Flatten(code));
    AsCodeAppend(ProgramItems(ms, fs, i), DeclItems(f, n, next));
    codes', refs', length' := codes + DefSet(code), refs + RefSet(code), length + 5 + Length(code);
    assert defs + {l} + DefSet(code) == MethodLabels(|ms|) + NameLabels(fs, i + 1) + codes';
    assert refs + {} + RefSet(code) == refs';
  }

  lemma {:induction false} NewName(ms: seq<ScopeMethod>, fs: seq<FunctionDecl>, i: nat, codes: set<Label>, n: nat)
    requires i < |fs| && DistinctNames(fs) && Within(codes, 0, n)
    ensures MethodLabel(Function(fs[i].name)) !in MethodLabels(|ms|) + NameLabels(fs, i) + codes
  {
    var l := MethodLabel(Function(fs[i].name));
    InMethodLabels(|ms|, l);
    if l in NameLabels(fs, i) {
      InNameLabels(fs, i, l);
    }
  }

  // ---------------------------------------------------------------- with range loops

  /** Labels that may be defined when m scope functions are compiled. */
  predicate MayDefine(it: Item, m: nat) {
    match it
    case Instruction(_) => true
    case LabelDef(l) => l.CodeLabel?
    case MethodDef(l, _, _) => l.MethodLabel? && (l.owner.Scope? ==> l.owner.number < m)
  }

  predicate AllMayDefine(items: seq<Item>, m: nat) {
    forall i | 0 <= i < |items| :: MayDefine(items[i], m)
  }

  /** Code only defines labels of its own. */
  lemma {:induction false} CodeMayDefine(a: Asm, m: nat)
    requires forall l | l in DefSet(a) :: l.CodeLabel?
    ensures AllMayDefine(Flatten(a), m)
    decreases a
  {
    match a
    case Done =>
    case Ins(_, rest) => CodeMayDefine(rest, m);
    case Def(_, rest) => CodeMayDefine(rest, m);
    case Seq(first, rest) =>
      CodeMayDefine(first, m);
      CodeMayDefine(rest, m);
  }

  lemma {:induction false} StmDefines(s: Stm, n: nat, mode: RangeMode, loop: Loop)
    ensures forall l | l in DefSet(StmCode(s, n, mode, loop)) :: l.CodeLabel?
    decreases s, 1
  {
    hide DefSet, CodeExpr, LabelsOf, CodeStm, Tidy;
    match s
    case Block(ss) => BlockDefines(ss, n, mode, loop);
    case If(c, thn, els) =>
      var m := n + LabelsOf(c);
      TidyExpr(c, n);
      TidyDefines(CodeExpr(c, n), n, m, {});
      Unfolding();
      if els.None? {
        BlockDefines(thn, m + 1, mode, loop);
      } else {
        BlockDefines(thn, m + 2, mode, loop);
        StmDefines(els.value, m + 2 + LabelsInBlock(thn, mode.Inlined?), Later(mode, |RangesOfBlock(thn)|), loop);
      }
    case While(c, ss) =>
      TidyExpr(c, n + 2);
      TidyDefines(CodeExpr(c, n + 2), n + 2, n + 2 + LabelsOf(c), {});
      BlockDefines(ss, n + 2 + LabelsOf(c), mode, InLoop(WhileStart(n), WhileEnd(n)));
      Unfolding();
    case _ =>
      TidyStm(s, n, loop);
      TidyDefines(CodeStm(s, n, loop), n, n + LabelsOfStm(s), LoopLabels(loop));
      Unfolding();
  }

  lemma {:induction false} TidyDefines(a: Asm, lo: nat, hi: nat, outer: set<Label>)
    requires Tidy(a, lo, hi, outer)
    ensures forall l | l in DefSet(a) :: l.CodeLabel?
  {
  }

  lemma {:induction false} BlockDefines(ss: seq<Stm>, n: nat, mode: RangeMode, loop: Loop)
    ensures forall l | l in DefSet(BlockCode(ss, n, mode, loop)) :: l.CodeLabel?
    decreases ss, 0
  {
    hide DefSet, StmCode, LabelsIn, RangesOf;
    Unfolding();
    if ss != [] {
      StmDefines(ss[0], n, mode, loop);
      BlockDefines(ss[1..], n + LabelsIn(ss[0], mode.Inlined?), Later(mode, |RangesOf(ss[0])|), loop);
    }
  }

  lemma {:induction false} DeclMayDefine(f: FunctionDecl, n: nat, next: nat, m: nat)
    ensures AllMayDefine(DeclItems(f, n, next), m)
  {
    hide DefSet, BlockCode;
    Unfolding();
    BlockDefines(f.body, n, Registered(next), NoLoop);
    CodeMayDefine(DeclCode(f, n, next), m);
  }

  lemma {:induction false} MethodsMayDefine(ms: seq<ScopeMethod>, i: nat)
    requires i <= |ms|
    ensures AllMayDefine(ItemsUpTo(ms, i), |ms|)
    decreases i
  {
    hide DefSet, CodeStm, GlobalCode;
    if i == 0 {
      GlobalCodeLabels(0, |ms|);
      CodeMayDefine(GlobalCode(0, |ms|), |ms|);
    } else {
      MethodsMayDefine(ms, i - 1);
      var m, n := ms[i - 1], CounterAt(ms, i - 1);
      Unfolding();
      TidyStm(m.body, n, NoLoop);
      CodeMayDefine(MethodCode(m, n), |ms|);
    }
  }

  lemma {:induction false} ProgramMayDefine(ms: seq<ScopeMethod>, fs: seq<FunctionDecl>, i: nat)
    requires i <= |fs|
    ensures AllMayDefine(ProgramItems(ms, fs, i), |ms|)
    decreases i
  {
    hide DeclItems, ItemsUpTo;
    if i == 0 {
      MethodsMayDefine(ms, |ms|);
    } else {
      ProgramMayDefine(ms, fs, i - 1);
      DeclMayDefine(fs[i - 1], CounterAt(ms, |ms|) + LabelsBefore(fs, i - 1), |ms| + RangesBefore(fs, i - 1), |ms|);
    }
  }

  lemma {:induction false} TableDefines(ss: seq<Statement>, l: Label)
    requires l in Table(ss)
    ensures exists j | 0 <= j < |ss| :: DefOf(ss[j]) == Some(l)
  {
    var n := |ss| - 1;
    if DefOf(ss[n]) != Some(l) {
      TableDefines(ss[..n], l);
      var j :| 0 <= j < n && DefOf(ss[..n][j]) == Some(l);
      assert DefOf(ss[j]) == Some(l);
    }
  }

  lemma {:induction false} RefsHas(ss: seq<Statement>, j: nat, l: Label)
    requires j < |ss| && RefOf(ss[j]) == Some(l)
    ensures l in Refs(ss)
  {
    var n := |ss| - 1;
    if j < n {
      RefsHas(ss[..n], j, l);
    }
  }

  /** The call of the first loop that a statement registers. */
  ghost predicate Calls(items: seq<Item>, number: nat) {
    exists j | 0 <= j < |items| :: items[j] == Instruction(Call(MethodLabel(Scope(number))))
  }

  lemma {:induction false} CallsIn(a: seq<Item>, b: seq<Item>, c: seq<Item>, number: nat)
    requires Calls(b, number)
    ensures Calls(a + b + c, number) && Calls(a + (b + c), number) && Calls(b + c, number) && Calls(a + b, number)
  {
    var j :| 0 <= j < |b| && b[j] == Instruction(Call(MethodLabel(Scope(number))));
    assert (a + b + c)[|a| + j] == b[j] && (a + (b + c))[|a| + j] == b[j] && (b + c)[j] == b[j]
      && (a + b)[|a| + j] == b[j];
  }

  lemma {:induction false} StmCalls(s: Stm, n: nat, next: nat, loop: Loop)
    requires RangesOf(s) != []
    ensures Calls(Flatten(StmCode(s, n, Registered(next), loop)), next)
    decreases s, 1
  {
    hide Calls, CodeExpr, BlockCode, CodeStm;
    match s
    case Block(ss) => BlockCalls(ss, n, next, loop);
    case If(c, thn, els) => IfCalls(s, n, next, loop);
    case While(c, ss) =>
      var m := n + 2 + LabelsOf(c);
      var inner := InLoop(WhileStart(n), WhileEnd(n));
      BlockCalls(ss, m, next, inner);
      var body := BlockCode(ss, m, Registered(next), inner);
      WhileContains(n, CodeExpr(c, n + 2), body, next);
    case For(_, _, _, _, _, _) => OneCall(next);
  }

  lemma {:induction false} OneCall(number: nat)
    ensures Calls(Flatten(Ins(Call(MethodLabel(Scope(number))), Done)), number)
  {
    var items := Flatten(Ins(Call(MethodLabel(Scope(number))), Done));
    assert items[0] == Instruction(Call(MethodLabel(Scope(number))));
  }

  lemma {:induction false} WhileContains(n: nat, cond: Asm, body: Asm, number: nat)
    requires Calls(Flatten(body), number)
    ensures Calls(Flatten(WhileTemplate(n, cond, body)), number)
  {
    hide Calls;
    var tail := Ins(Jmp(WhileStart(n)), Def(WhileEnd(n), Done));
    var test := Ins(Jez(WhileEnd(n)), Seq(body, tail));
    CallsIn([Instruction(Jez(WhileEnd(n)))], Flatten(body), Flatten(tail), number);
    assert Flatten(test) == [Instruction(Jez(WhileEnd(n)))] + (Flatten(body) + Flatten(tail));
    CallsIn(Flatten(cond), Flatten(test), [], number);
    CallsIn([LabelDef(WhileStart(n))], Flatten(cond) + Flatten(test), [], number);
  }

  lemma {:induction false} IfCalls(s: Stm, n: nat, next: nat, loop: Loop)
    requires s.If? && RangesOf(s) != []
    ensures Calls(Flatten(StmCode(s, n, Registered(next), loop)), next)
    decreases s, 0
  {
    hide Calls, CodeExpr, BlockCode, CodeStm;
    var m := n + LabelsOf(s.cond);
    if s.els.None? {
      BlockCalls(s.thn, m + 1, next, loop);
      IfContains(m, CodeExpr(s.cond, n), BlockCode(s.thn, m + 1, Registered(next), loop), next);
    } else {
      var mode := Later(Registered(next), |RangesOfBlock(s.thn)|);
      var k := m + 2 + LabelsInBlock(s.thn, false);
      if RangesOfBlock(s.thn) != [] {
        BlockCalls(s.thn, m + 2, next, loop);
      } else {
        StmCalls(s.els.value, k, next, loop);
      }
      BranchesContain(m, CodeExpr(s.cond, n), BlockCode(s.thn, m + 2, Registered(next), loop),
        StmCode(s.els.value, k, mode, loop), next);
    }
  }

  lemma {:induction false} IfContains(m: nat, cond: Asm, thn: Asm, number: nat)
    requires Calls(Flatten(thn), number)
    ensures Calls(Flatten(IfTemplate(m, cond, thn)), number)
  {
    hide Calls;
    var end := CodeLabel(IfEndKind, m);
    var test := Ins(Jez(end), Seq(thn, Def(end, Done)));
    CallsIn([Instruction(Jez(end))], Flatten(thn), Flatten(Def(end, Done)), number);
    assert Flatten(test) == [Instruction(Jez(end))] + (Flatten(thn) + Flatten(Def(end, Done)));
    CallsIn(Flatten(cond), Flatten(test), [], number);
  }

  lemma {:induction false} BranchesContain(m: nat, cond: Asm, thn: Asm, els: Asm, number: nat)
    requires Calls(Flatten(thn), number) || Calls(Flatten(els), number)
    ensures Calls(Flatten(IfElseTemplate(m, cond, thn, els)), number)
  {
    hide Calls;
    var end, other := CodeLabel(IfEndKind, m), CodeLabel(IfElseKind, m + 1);
    var second := Def(other, Seq(els, Def(end, Done)));
    var jump := Ins(Jmp(end), second);
    var both := Seq(thn, jump);
    if Calls(Flatten(els), number) {
      CallsIn([LabelDef(other)], Flatten(els), Flatten(Def(end, Done)), number);
      assert Flatten(second) == [LabelDef(other)] + (Flatten(els) + Flatten(Def(end, Done)));
      CallsIn([Instruction(Jmp(end))], Flatten(second), [], number);
      CallsIn(Flatten(thn), Flatten(jump), [], number);
    } else {
      CallsIn([], Flatten(thn), Flatten(jump), number);
    }
    var test := Ins(Jez(other), both);
    CallsIn([Instruction(Jez(other))], Flatten(both), [], number);
    CallsIn(Flatten(cond), Flatten(test), [], number);
  }

  lemma {:induction false} BlockCalls(ss: seq<Stm>, n: nat, next: nat, loop: Loop)
    requires RangesOfBlock(ss) != []
    ensures Calls(Flatten(BlockCode(ss, n, Registered(next), loop)), next)
    decreases ss, 0
  {
    hide Calls, StmCode;
    var first := StmCode(ss[0], n, Registered(next), loop);
    var rest := BlockCode(ss[1..], n + LabelsIn(ss[0], false), Later(Registered(next), |RangesOf(ss[0])|), loop);
    if RangesOf(ss[0]) != [] {
      StmCalls(ss[0], n, next, loop);
      CallsIn([], Flatten(first), Flatten(rest), next);
    } else {
      BlockCalls(ss[1..], n + LabelsIn(ss[0], false), next, loop);
      CallsIn(Flatten(first), Flatten(rest), [], next);
    }
  }

  /** A function with a range loop calls a scope function that is compiled nowhere. */
  lemma {:induction false} LoopCalls(ms: seq<ScopeMethod>, fs: seq<FunctionDecl>, i: nat, n: nat)
    requires i < n <= |fs| && !NoRangeLoop(fs[i])
    ensures Calls(ProgramItems(ms, fs, n), |ms| + RangesBefore(fs, i))
    decreases n
  {
    hide Calls, BlockCode, DeclItems, ItemsUpTo;
    var before, f := ProgramItems(ms, fs, n - 1), fs[n - 1];
    var labels, next := CounterAt(ms, |ms|) + LabelsBefore(fs, n - 1), |ms| + RangesBefore(fs, n - 1);
    if i == n - 1 {
      DeclCalls(f, labels, next);
      CallsIn(before, DeclItems(f, labels, next), [], next);
    } else {
      LoopCalls(ms, fs, i, n - 1);
      CallsIn([], before, DeclItems(f, labels, next), |ms| + RangesBefore(fs, i));
    }
  }

  lemma {:induction false} DeclCalls(f: FunctionDecl, n: nat, next: nat)
    requires !NoRangeLoop(f)
    ensures Calls(DeclItems(f, n, next), next)
  {
    hide Calls, BlockCode;
    BlockCalls(f.body, n, next, NoLoop);
    var body := Flatten(BlockCode(f.body, n, Registered(next), NoLoop));
    CallsIn([], body, Flatten(Ins(Ret, Done)), next);
    CallsIn([MethodDef(MethodLabel(Function(f.name)), f.args, f.locals)], Flatten(DeclCode(f, n, next)), [], next);
  }

  lemma {:induction false} UndefinedCall(items: seq<Item>, m: nat, number: nat)
    requires AllMayDefine(items, m) && Calls(items, number) && m <= number
    ensures var ss, l := AsCode(items), MethodLabel(Scope(number)); l in Refs(ss) && l !in Table(ss)
  {
    var ss, l := AsCode(items), MethodLabel(Scope(number));
    var j :| 0 <= j < |items| && items[j] == Instruction(Call(l));
    RefsHas(ss, j, l);
    forall k | 0 <= k < |ss|
      ensures DefOf(ss[k]) != Some(l)
    {
      assert MayDefine(items[k], m);
    }
    if l in Table(ss) {
      TableDefines(ss, l);
    }
  }

  // ---------------------------------------------------------------- the calls that are registered

  /** The numbers of the scope functions that a piece of code calls, in order. */
  function Scopes(a: Asm): seq<nat> {
    match a
    case Done => []
    case Ins(Call(MethodLabel(Scope(k))), rest) => [k] + Scopes(rest)
    case Ins(_, rest) => Scopes(rest)
    case Def(_, rest) => Scopes(rest)
    case Seq(first, rest) => Scopes(first) + Scopes(rest)
  }

  function UpFrom(first: nat, count: nat): seq<nat> {
    seq(count, i requires 0 <= i < count => first + i)
  }

  lemma {:induction false} UpFromBoth(first: nat, j: nat, k: nat)
    ensures UpFrom(first, j) + UpFrom(first + j, k) == UpFrom(first, j + k)
    ensures UpFrom(first, 0) == []
  {
  }

  lemma {:induction false} NoScopes(a: Asm)
    requires forall l | l in RefSet(a) :: l.CodeLabel?
    ensures Scopes(a) == []
    decreases a
  {
    match a
    case Done =>
    case Ins(i, rest) =>
      assert i.Call? ==> i.target in RefSet(a);
      NoScopes(rest);
    case Def(_, rest) => NoScopes(rest);
    case Seq(first, rest) =>
      NoScopes(first);
      NoScopes(rest);
  }

  predicate CodeLoop(loop: Loop) {
    loop.InLoop? ==> loop.onContinue.CodeLabel? && loop.onBreak.CodeLabel?
  }

  lemma {:induction false} TidyRefers(a: Asm, lo: nat, hi: nat, loop: Loop)
    requires Tidy(a, lo, hi, LoopLabels(loop)) && CodeLoop(loop)
    ensures Scopes(a) == []
  {
    NoScopes(a);
  }

  /** One level of the definition, for code of any depth. */
  lemma {:induction false} ScopesUnfolded()
    ensures Scopes(Done) == []
    ensures forall i: Instr<Label>, rest {:trigger Scopes(Ins(i, rest))} | !i.Call? ::
      Scopes(Ins(i, rest)) == Scopes(rest)
    ensures forall l, rest {:trigger Scopes(Def(l, rest))} :: Scopes(Def(l, rest)) == Scopes(rest)
    ensures forall a, rest {:trigger Scopes(Seq(a, rest))} :: Scopes(Seq(a, rest)) == Scopes(a) + Scopes(rest)
  {
  }

  /** What the templates around a piece of code add to its calls. */
  lemma {:induction false} TemplateScopes(m: nat, cond: Asm, thn: Asm, els: Asm)
    ensures Scopes(IfTemplate(m, cond, thn)) == Scopes(cond) + Scopes(thn)
    ensures Scopes(IfElseTemplate(m, cond, thn, els)) == Scopes(cond) + (Scopes(thn) + Scopes(els))
    ensures Scopes(WhileTemplate(m, cond, thn)) == Scopes(cond) + Scopes(thn)
  {
    hide Scopes;
    ScopesUnfolded();
    assert forall x: seq<nat> :: x + [] == x;
  }

  /** The loops of a statement are called in order, by the numbers under which they are registered. */
  lemma {:induction false} StmScopes(s: Stm, n: nat, next: nat, loop: Loop)
    requires CodeLoop(loop)
    ensures Scopes(StmCode(s, n, Registered(next), loop)) == UpFrom(next, |RangesOf(s)|)
    decreases s, 1
  {
    hide Scopes, CodeExpr, LabelsOf, CodeStm, Tidy, UpFrom, BlockCode, IfTemplate, IfElseTemplate, WhileTemplate;
    UpFromBoth(next, 0, 0);
    match s
    case Block(ss) => BlockScopes(ss, n, next, loop);
    case If(c, thn, els) =>
      var m := n + LabelsOf(c);
      var j := |RangesOfBlock(thn)|;
      TidyExpr(c, n);
      TidyRefers(CodeExpr(c, n), n, m, NoLoop);
      if els.None? {
        BlockScopes(thn, m + 1, next, loop);
        TemplateScopes(m, CodeExpr(c, n), BlockCode(thn, m + 1, Registered(next), loop), Done);
      } else {
        var k := m + 2 + LabelsInBlock(thn, false);
        BlockScopes(thn, m + 2, next, loop);
        StmScopes(els.value, k, next + j, loop);
        UpFromBoth(next, j, |RangesOf(els.value)|);
        TemplateScopes(m, CodeExpr(c, n), BlockCode(thn, m + 2, Registered(next), loop),
          StmCode(els.value, k, Registered(next + j), loop));
      }
    case While(c, ss) =>
      var inner := InLoop(WhileStart(n), WhileEnd(n));
      TidyExpr(c, n + 2);
      TidyRefers(CodeExpr(c, n + 2), n + 2, n + 2 + LabelsOf(c), NoLoop);
      BlockScopes(ss, n + 2 + LabelsOf(c), next, inner);
      TemplateScopes(n, CodeExpr(c, n + 2), BlockCode(ss, n + 2 + LabelsOf(c), Registered(next), inner), Done);
    case For(_, _, _, _, _, _) => OneScope(next);
    case _ =>
      TidyStm(s, n, loop);
      TidyRefers(CodeStm(s, n, loop), n, n + LabelsOfStm(s), loop);
  }

  lemma {:induction false} OneScope(k: nat)
    ensures Scopes(Ins(Call(MethodLabel(Scope(k))), Done)) == UpFrom(k, 1)
  {
  }

  lemma {:induction false} BlockScopes(ss: seq<Stm>, n: nat, next: nat, loop: Loop)
    requires CodeLoop(loop)
    ensures Scopes(BlockCode(ss, n, Registered(next), loop)) == UpFrom(next, |RangesOfBlock(ss)|)
    decreases ss, 0
  {
    hide StmCode, RangesOf, LabelsIn, UpFrom;
    UpFromBoth(next, 0, 0);
    if ss != [] {
      var j := |RangesOf(ss[0])|;
      StmScopes(ss[0], n, next, loop);
      BlockScopes(ss[1..], n + LabelsIn(ss[0], false), next + j, loop);
      UpFromBoth(next, j, |RangesOfBlock(ss[1..])|);
    }
  }

  /** The calls in the code of function i: one for each of its loops, numbered on from those of the scope functions
      and of the functions before it. */
  lemma {:induction false} RegisteredNumbers(ms: seq<ScopeMethod>, fs: seq<FunctionDecl>, i: nat)
    requires i < |fs|
    ensures Scopes(DeclCode(fs[i], CounterAt(ms, |ms|) + LabelsBefore(fs, i), |ms| + RangesBefore(fs, i)))
      == UpFrom(|ms| + RangesBefore(fs, i), |RangesOfBlock(fs[i].body)|)
  {
    hide BlockCode, UpFrom;
    var n, next := CounterAt(ms, |ms|) + LabelsBefore(fs, i), |ms| + RangesBefore(fs, i);
    BlockScopes(fs[i].body, n, next, NoLoop);
  }

  // ---------------------------------------------------------------- the theorem

  /** The assembler accepts the code of a program if and only if no user function contains a range loop: such a
      loop is replaced by the call of a scope function that is registered after all scope functions have been
      compiled. */
  lemma {:induction false} FunctionsAccepted(ms: seq<ScopeMethod>, fs: seq<FunctionDecl>)
    requires DistinctNames(fs)
    ensures PassesFirst(StatementsWith(ms, fs)) <==> forall i | 0 <= i < |fs| :: NoRangeLoop(fs[i])
    ensures (forall i | 0 <= i < |fs| :: NoRangeLoop(fs[i])) ==> ImmediatesOk(StatementsWith(ms, fs))
  {
    hide ProgramItems, NoRangeLoop, Calls, AllMayDefine, NoRedefinition, Refs, Table;
    if forall i | 0 <= i < |fs| :: NoRangeLoop(fs[i]) {
      AllAccepted(ms, fs);
    } else {
      var i :| 0 <= i < |fs| && !NoRangeLoop(fs[i]);
      ProgramMayDefine(ms, fs, |fs|);
      LoopCalls(ms, fs, i, |fs|);
      UndefinedCall(ProgramItems(ms, fs, |fs|), |ms|, |ms| + RangesBefore(fs, i));
    }
  }

  lemma {:induction false} AllAccepted(ms: seq<ScopeMethod>, fs: seq<FunctionDecl>)
    requires DistinctNames(fs) && forall i | 0 <= i < |fs| :: NoRangeLoop(fs[i])
    ensures PassesFirst(StatementsWith(ms, fs)) && ImmediatesOk(StatementsWith(ms, fs))
  {
    hide ProgramItems, NoRangeLoop, NoRedefinition, Refs, Table;
    var codes, refs, length := FunctionsUpTo(ms, fs, |fs|);
  }

  /** `void f() { for (int i : 0 .. 3) {} }` as the whole program: the call in f is undefined. */
  lemma {:induction false} LoopInFunctionExample()
    ensures var f := FunctionDecl("f", 0, 1, true, [For(-1, TInt, IntLit(0), IntLit(3), None, [])]);
      var ss, l := StatementsWith([], [f]), MethodLabel(Scope(0));
      !PassesFirst(ss) && l in Refs(ss) && l !in Table(ss)
  {
    hide ProgramItems, Calls, AllMayDefine, Refs, Table;
    var loop := For(-1, TInt, IntLit(0), IntLit(3), None, []);
    var f := FunctionDecl("f", 0, 1, true, [loop]);
    assert RangesOfBlock(f.body) == RangesOf(loop) + RangesOfBlock([]) == [ScopeMethod(loop, 0)];
    ProgramMayDefine([], [f], 1);
    LoopCalls([], [f], 0, 1);
    UndefinedCall(ProgramItems([], [f], 1), 0, 0);
  }
}
