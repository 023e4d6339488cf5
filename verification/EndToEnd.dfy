/** From source to bytes: the generated program assembles, and the VM running the assembled bytes does
    what the source program does. */
module EndToEnd {
  import opened Words
  import opened Isa
  import opened Source
  import opened CodeGen
  import opened Labelling
  import opened Encoding
  import opened Assembler
  import opened Loading
  import opened Cursor
  import opened Program
  import opened Domain
  import opened Pages
  import opened Accesses
  import opened PagedMachine
  import opened PagedRuns
  import Machine

  function AsCode(items: seq<Item>): seq<Statement> {
    seq(|items|, i requires 0 <= i < |items| => Statement.Code(items[i]))
  }

  function ProgramStatements(ms: seq<ScopeMethod>): seq<Statement> {
    AsCode(ItemsUpTo(ms, |ms|))
  }

  // ---------------------------------------------------------------- appending code to a statement list

  lemma {:induction false} AsCodeAppend(p: seq<Item>, q: seq<Item>)
    ensures AsCode(p + q) == AsCode(p) + AsCode(q)
  {
  }

  /** Statement lists built so far: what the assembler knows about them. */
  ghost predicate Accepted(ss: seq<Statement>, defs: set<Label>, refs: set<Label>, length: nat) {
    && NoRedefinition(ss) && Table(ss).Keys == defs && Refs(ss) == refs && CodeLen(ss) == length
    && ImmediatesOk(ss) && forall i | 0 <= i < |ss| :: ss[i].Code?
  }

  lemma {:induction false} AddOne(ss: seq<Statement>, it: Item, defs: set<Label>, refs: set<Label>, length: nat)
    requires Accepted(ss, defs, refs, length) && (it.Instruction? ==> Encodable(it.i))
    requires DefOf(Statement.Code(it)).Some? ==> DefOf(Statement.Code(it)).value !in defs
    ensures var s := Statement.Code(it);
      Accepted(ss + [s], defs + (if DefOf(s).Some? then {DefOf(s).value} else {}),
        refs + (if RefOf(s).Some? then {RefOf(s).value} else {}),
               length + ItemSize(it))
  {
    var s := Statement.Code(it);
    assert (ss + [s])[..|ss|] == ss;
  }

  lemma {:induction false} AddCode(ss: seq<Statement>, a: Asm, defs: set<Label>, refs: set<Label>, length: nat)
    requires Accepted(ss, defs, refs, length) && Distinct(a) && AllEncodable(a) && DefSet(a) !! defs
    ensures Accepted(ss + AsCode(Flatten(a)), defs + DefSet(a), refs + RefSet(a), length + Length(a))
    decreases a
  {
    hide Accepted;
    match a {
      case Done =>
        assert AsCode([]) == [] && ss + [] == ss && defs + {} == defs && refs + {} == refs;
      case Ins(i, rest) =>
        AddOne(ss, Instruction(i), defs, refs, length);
        AddCode(ss + [Statement.Code(Instruction(i))], rest, defs + {}, refs + RefsOf(i), length + Size(i));
        Reassociate(ss, [Instruction(i)], Flatten(rest));
        assert defs + {} == defs;
        assert refs + RefsOf(i) + RefSet(rest) == refs + RefSet(a);
      case Def(l, rest) =>
        AddOne(ss, LabelDef(l), defs, refs, length);
        AddCode(ss + [Statement.Code(LabelDef(l))], rest, defs + {l}, refs + {}, length);
        Reassociate(ss, [LabelDef(l)], Flatten(rest));
        assert defs + {l} + DefSet(rest) == defs + DefSet(a) && refs + {} == refs;
      case Seq(first, rest) =>
        AddCode(ss, first, defs, refs, length);
        AddCode(ss + AsCode(Flatten(first)), rest, defs + DefSet(first), refs + RefSet(first), length + Length(first));
        Reassociate(ss, Flatten(first), Flatten(rest));
        assert defs + DefSet(first) + DefSet(rest) == defs + DefSet(a);
        assert refs + RefSet(first) + RefSet(rest) == refs + RefSet(a);
    }
  }

  lemma {:induction false} Reassociate(ss: seq<Statement>, p: seq<Item>, q: seq<Item>)
    ensures ss + AsCode(p) + AsCode(q) == ss + AsCode(p + q)
    ensures |p| == 1 ==> AsCode(p) == [Statement.Code(p[0])]
  {
    AsCodeAppend(p, q);
  }

  // ---------------------------------------------------------------- the generated program is accepted

  function MethodLabels(i: nat): set<Label> {
    if i == 0 then {} else MethodLabels(i - 1) + {MethodLabel(Scope(i - 1))}
  }

  lemma {:induction false} InMethodLabels(i: nat, l: Label)
    ensures l in MethodLabels(i) <==> l.MethodLabel? && l.owner.Scope? && l.owner.number < i
  {
    if i > 0 {
      InMethodLabels(i - 1, l);
    }
  }

  lemma {:induction false} GlobalCodeLabels(i: nat, n: nat)
    requires i <= n
    ensures var a := GlobalCode(i, n);
      DefSet(a) == {} && Distinct(a) && AllEncodable(a) && RefSet(a) <= MethodLabels(n)
    decreases n - i
  {
    if i < n {
      GlobalCodeLabels(i + 1, n);
      InMethodLabels(n, MethodLabel(Scope(i)));
      assert RefSet(GlobalCode(i, n)) == {MethodLabel(Scope(i))} + RefSet(GlobalCode(i + 1, n));
    }
  }

  /** After i methods: all method labels up to i, code labels below the counter, and only such references. */
  lemma {:induction false} AcceptedUpTo(ms: seq<ScopeMethod>, i: nat)
    returns (codes: set<Label>, refs: set<Label>, length: nat)
    requires i <= |ms|
    ensures Accepted(AsCode(ItemsUpTo(ms, i)), MethodLabels(i) + codes, refs, length)
    ensures Within(codes, 0, CounterAt(ms, i)) && refs <= codes + MethodLabels(|ms|)
  {
    hide Accepted, CodeStm, LabelsOfStm, Within, GlobalCode;
    if i == 0 {
      GlobalCodeLabels(0, |ms|);
      var a := GlobalCode(0, |ms|);
      NothingYet();
      AddCode([], a, {}, {}, 0);
      assert [] + AsCode(Flatten(a)) == AsCode(ItemsUpTo(ms, 0));
      codes, refs, length := {}, RefSet(a), Length(a);
      assert {} + DefSet(a) == MethodLabels(0) + codes && {} + RefSet(a) == refs;
      NoCodes();
    } else {
      codes, refs, length := AcceptedUpTo(ms, i - 1);
      codes, refs, length := AcceptedNext(ms, i - 1, codes, refs, length);
    }
  }

  lemma {:induction false} NothingYet()
    ensures Accepted([], {}, {}, 0)
  {
  }

  lemma {:induction false} NoCodes()
    ensures Within({}, 0, 0)
  {
  }

  lemma {:induction false} AcceptedNext(ms: seq<ScopeMethod>, i: nat, codes: set<Label>, refs: set<Label>, length: nat)
    returns (codes': set<Label>, refs': set<Label>, length': nat)
    requires i < |ms| && Accepted(AsCode(ItemsUpTo(ms, i)), MethodLabels(i) + codes, refs, length)
    requires Within(codes, 0, CounterAt(ms, i)) && refs <= codes + MethodLabels(|ms|)
    ensures Accepted(AsCode(ItemsUpTo(ms, i + 1)), MethodLabels(i + 1) + codes', refs', length')
    ensures Within(codes', 0, CounterAt(ms, i + 1)) && refs' <= codes' + MethodLabels(|ms|)
  {
    hide Accepted, CodeStm, LabelsOfStm, Flatten, Length;
    var n, ss := CounterAt(ms, i), AsCode(ItemsUpTo(ms, i));
    var l, body := MethodLabel(Scope(i)), CodeStm(ms[i].body, n, NoLoop);
    var header := MethodDef(l, 0, ms[i].locals);
    var defs := MethodLabels(i) + codes;
    InMethodLabels(i, l);
    AddOne(ss, header, defs, refs, length);
    TidyStm(ms[i].body, n, NoLoop);
    MethodCodeLabels(body);
    forall x | x in DefSet(body)
      ensures x !in defs + {l}
    {
      InMethodLabels(i, x);
    }
    AddCode(ss + [Statement.Code(header)], Seq(body, Ins(Ret, Done)), defs + {l}, refs + {}, length + 5);
    Reassociate(ss, [header], Flatten(Seq(body, Ins(Ret, Done))));
    AsCodeAppend(ItemsUpTo(ms, i), MethodItems(ms, i));
    codes', refs', length' := codes + DefSet(body), refs + RefSet(body), length + 5 + Length(Seq(body, Ins(Ret, Done)));
    assert defs + {l} + DefSet(body) == MethodLabels(i + 1) + codes';
    assert refs + {} + RefSet(body) == refs';
    assert CounterAt(ms, i + 1) == n + LabelsOfStm(ms[i].body);
  }

  lemma {:induction false} MethodCodeLabels(body: Asm)
    requires Distinct(body) && AllEncodable(body)
    ensures var a := Seq(body, Ins(Ret, Done));
      Distinct(a) && AllEncodable(a) && DefSet(a) == DefSet(body) && RefSet(a) == RefSet(body)
  {
    Unfolding();
  }

  /** The assembler accepts every generated program. */
  lemma {:induction false} ProgramAccepted(ms: seq<ScopeMethod>)
    ensures var ss := ProgramStatements(ms);
      && NoRedefinition(ss) && Refs(ss) <= Table(ss).Keys && ImmediatesOk(ss) && forall i | 0 <= i < |ss| :: ss[i].Code?
  {
    var codes, refs, length := AcceptedUpTo(ms, |ms|);
  }

  // ---------------------------------------------------------------- the assembled program is loaded

  /** An accepted list of code statements, and the image the VM makes of its bytes. */
  ghost predicate Assembled(ss: seq<Statement>, im: Image) {
    && NoRedefinition(ss) && Refs(ss) <= Table(ss).Keys && CodeLen(ss) < W32
    && (forall i | 0 <= i < |ss| :: ss[i].Code?)
    && AllKnown(ss, Table(ss))
    && |Body(ss, Table(ss))| >= CodeLen(ss)
    && im == Image(CodeOf(Body(ss, Table(ss))[..CodeLen(ss)]), Table(ss))
  }

  ghost predicate Holds(ss: seq<Statement>, j: nat, a: Asm) {
    j + |Flatten(a)| <= |ss| && ss[j..j + |Flatten(a)|] == AsCode(Flatten(a))
  }

  /** Code found in the list at position j is loaded at the offset of that position. */
  lemma {:induction false} LoadedAt(ss: seq<Statement>, im: Image, j: nat, a: Asm)
    requires Assembled(ss, im) && CodeInPages(ss) && Holds(ss, j, a)
    ensures Cursor.Loaded(im, CodeLen(ss[..j]), a)
    ensures CodeLen(ss[..j + |Flatten(a)|]) == CodeLen(ss[..j]) + Length(a)
    decreases a
  {
    hide Assembled, Size, Resolve, Holds, CodeLen, LabelsKnown, AsCode, FetchInPage;
    match a {
      case Done =>
      case Ins(i, rest) =>
        HeldItem(ss, j, a, Instruction(i), rest);
        LoadedItem(ss, im, j);
        assert StatementInPages(CodeLen(ss[..j]), ss[j]);
        LoadedAt(ss, im, j + 1, rest);
      case Def(l, rest) =>
        HeldItem(ss, j, a, LabelDef(l), rest);
        LoadedItem(ss, im, j);
        LoadedAt(ss, im, j + 1, rest);
      case Seq(first, rest) =>
        HeldSeq(ss, j, first, rest);
        LoadedAt(ss, im, j, first);
        LoadedAt(ss, im, j + |Flatten(first)|, rest);
        assert j + |Flatten(first)| + |Flatten(rest)| == j + |Flatten(a)|;
    }
  }

  lemma {:induction false} HeldItem(ss: seq<Statement>, j: nat, a: Asm, it: Item, rest: Asm)
    requires Holds(ss, j, a) && Flatten(a) == [it] + Flatten(rest)
    ensures j < |ss| && ss[j] == Statement.Code(it) && Holds(ss, j + 1, rest)
    ensures j + 1 + |Flatten(rest)| == j + |Flatten(a)|
  {
    var n := |Flatten(a)|;
    assert ss[j] == ss[j..j + n][0];
    assert ss[j + 1..j + n] == ss[j..j + n][1..] == AsCode(Flatten(a))[1..] == AsCode(Flatten(rest));
  }

  lemma {:induction false} HeldSeq(ss: seq<Statement>, j: nat, first: Asm, rest: Asm)
    requires Holds(ss, j, Seq(first, rest))
    ensures Holds(ss, j, first) && Holds(ss, j + |Flatten(first)|, rest)
  {
    var p, q := Flatten(first), Flatten(rest);
    AsCodeAppend(p, q);
    var whole := ss[j..j + |p| + |q|];
    assert Flatten(Seq(first, rest)) == p + q;
    assert ss[j..j + |p|] == whole[..|p|] == AsCode(p);
    assert ss[j + |p|..j + |p| + |q|] == whole[|p|..] == AsCode(q);
  }

  /** One statement of the list, in the image. */
  lemma {:induction false} LoadedItem(ss: seq<Statement>, im: Image, j: nat)
    requires Assembled(ss, im) && j < |ss|
    ensures ss[j].Code? && CodeLen(ss[..j + 1]) == CodeLen(ss[..j]) + ItemSize(ss[j].item) < W32
    ensures var at, it := CodeLen(ss[..j]), ss[j].item;
      match it
      case Instruction(i) => LabelsKnown(i, im.labels) && at in im.code.ops && im.code.ops[at] == Resolve(i, im.labels)
      case LabelDef(l) => l in im.labels && im.labels[l] == at
      case MethodDef(l, args, locals) =>
        l in im.labels && im.labels[l] == at && at in im.code.headers
          && im.code.headers[at] == Machine.Header(args, locals % W32)
  {
    hide Resolve, LabelsKnown, CodeOf;
    CodeLenUpTo(ss, j);
    FetchAgrees(ss, im.labels, j);
    if DefOf(ss[j]).Some? {
      TableEntry(ss, j);
    }
  }

  /** Position of method i in the list. */
  lemma {:induction false} MethodPosition(ms: seq<ScopeMethod>, i: nat, k: nat)
    requires i < k <= |ms|
    ensures ItemsUpTo(ms, i) + MethodItems(ms, i) <= ItemsUpTo(ms, k)
    decreases k
  {
    hide MethodItems;
    if i + 1 < k {
      MethodPosition(ms, i, k - 1);
    }
  }

  lemma {:induction false} GlobalPosition(ms: seq<ScopeMethod>, k: nat)
    requires k <= |ms|
    ensures Flatten(GlobalCode(0, |ms|)) <= ItemsUpTo(ms, k)
  {
    hide MethodItems, GlobalCode;
    if k > 0 {
      GlobalPosition(ms, k - 1);
    }
  }

  lemma {:induction false} MethodIsLoaded(ms: seq<ScopeMethod>, ss: seq<Statement>, im: Image, i: nat)
    requires i < |ms| && ProgramStatements(ms) <= ss && Assembled(ss, im) && CodeInPages(ss) && ms[i].locals < W32
    ensures MethodLoaded(im, ms[i], i, CounterAt(ms, i))
  {
    hide Assembled, Flatten, Cursor.Loaded, CounterAt, MethodCode, Length, InOnePage, Resolve, LabelsKnown, CodeLen;
    var p, a := |ItemsUpTo(ms, i)|, MethodCode(ms[i], CounterAt(ms, i));
    MethodPosition(ms, i, |ms|);
    var header, code := MethodDef(MethodLabel(Scope(i)), 0, ms[i].locals), Flatten(a);
    assert ss[p] == ProgramStatements(ms)[p] == Statement.Code(header);
    LoadedItem(ss, im, p);
    assert StatementInPages(CodeLen(ss[..p]), ss[p]);
    assert ItemsUpTo(ms, |ms|)[p + 1..p + 1 + |code|] == code;
    assert ss[p + 1..p + 1 + |code|] == ProgramStatements(ms)[p + 1..p + 1 + |code|] == AsCode(code);
    LoadedAt(ss, im, p + 1, a);
  }

  /** A list that begins with the code of a program holds that program. */
  lemma {:induction false} ProgramIsLoaded(ms: seq<ScopeMethod>, ss: seq<Statement>, im: Image)
    requires ProgramStatements(ms) <= ss && Assembled(ss, im) && CodeInPages(ss)
    requires forall i | 0 <= i < |ms| :: ms[i].locals < W32
    ensures ProgramLoaded(im, ms)
  {
    hide Assembled, Flatten, Cursor.Loaded, MethodLoaded, GlobalCode, Length;
    var code := Flatten(GlobalCode(0, |ms|));
    GlobalPosition(ms, |ms|);
    assert ss[0..|code|] == ProgramStatements(ms)[0..|code|] == AsCode(code);
    LoadedAt(ss, im, 0, GlobalCode(0, |ms|));
    CodeLenMonotone(ss, |code|);
    assert CodeLen(ss[..0]) == 0;
    AssembledSmall(ss, im);
    forall i | 0 <= i < |ms|
      ensures MethodLoaded(im, ms[i], i, CounterAt(ms, i))
    {
      MethodIsLoaded(ms, ss, im, i);
    }
  }

  lemma {:induction false} AssembledSmall(ss: seq<Statement>, im: Image)
    requires Assembled(ss, im)
    ensures CodeLen(ss) < W32
  {
  }

  lemma {:induction false} CodeLenMonotone(ss: seq<Statement>, k: nat)
    requires k <= |ss|
    ensures CodeLen(ss[..k]) <= CodeLen(ss)
    decreases |ss|
  {
    if k < |ss| {
      CodeLenMonotone(ss[..|ss| - 1], k);
      assert ss[..|ss| - 1][..k] == ss[..k];
    } else {
      assert ss[..k] == ss;
    }
  }

  // ---------------------------------------------------------------- end to end

  lemma {:induction false} RefsKnown(ss: seq<Statement>, labels: Labels)
    requires Refs(ss) <= labels.Keys
    ensures AllKnown(ss, labels)
  {
    if ss != [] {
      var n := |ss| - 1;
      RefsKnown(ss[..n], labels);
      assert forall i | 0 <= i < n :: ss[..n][i] == ss[i];
    }
  }

  lemma {:induction false} OnlyCode(ss: seq<Statement>)
    requires forall i | 0 <= i < |ss| :: ss[i].Code?
    ensures DataLen(ss) == 0 && CountedLen(ss) == 0
  {
    if ss != [] {
      OnlyCode(ss[..|ss| - 1]);
    }
  }

  /** The bytes of a generated program. */
  function ProgramBytes(ms: seq<ScopeMethod>): Bytes
    requires AllKnown(ProgramStatements(ms), Table(ProgramStatements(ms)))
  {
    Assembly(ProgramStatements(ms))
  }

  /** The initial state of the VM on loaded bytes. */
  function StartOf(l: Loading.Loaded): Machine.State {
    Initial(l.mem, l.dataStart, l.hb)
  }

  /** The VM on its pages reaches a status. */
  ghost predicate PagedEnds(s: Machine.State, status: Machine.Status) {
    exists k: nat :: PagedSteps(s, k).status == status
  }

  ghost predicate PagedRunsForever(s: Machine.State) {
    forall k: nat :: PagedSteps(s, k).status == Machine.Running
  }

  lemma {:induction false} EndsOnPages(code: Machine.Code, b: Bytes, s: Machine.State, status: Machine.Status)
    requires code == CodeOf(b) && CodeStored(s, b) && forall k: nat :: RunCalm(code, s, k)
    ensures PagedEnds(s, status) <==> Ends(code, s, status)
    ensures PagedRunsForever(s) <==> RunsForever(code, s)
  {
    hide CodeOf, CodeStored, RunCalm;
    forall k: nat
      ensures PagedSteps(s, k) == Machine.Run(code, s, k)
    {
      RunOnPages(code, b, s, k);
    }
  }

  /** The image that the VM makes of the bytes of an accepted list of code statements. */
  lemma {:induction false} ListIsLoaded(ss: seq<Statement>) returns (im: Image)
    requires NoRedefinition(ss) && Refs(ss) <= Table(ss).Keys && forall i | 0 <= i < |ss| :: ss[i].Code?
    requires CodeLen(ss) + HEADER_SIZE < W32
    ensures AllKnown(ss, Table(ss)) && ReadBytecode(Assembly(ss)).Some?
    ensures var l := ReadBytecode(Assembly(ss)).value;
      && Assembled(ss, im) && im == Image(CodeOf(l.code), Table(ss)) && CodeStored(StartOf(l), l.code)
      && l.dataStart == l.hb == CodeLen(ss)
  {
    hide CodeOf, Table, CodeLen, HeaderBytes, ReadBytecode, NoRedefinition, Refs;
    RefsKnown(ss, Table(ss));
    OnlyCode(ss);
    LoadAssembled(ss, Table(ss));
    var l := ReadBytecode(Assembly(ss)).value;
    BodyLength(ss, Table(ss));
    im := Image(CodeOf(l.code), Table(ss));
  }

  /** What the VM does with the bytes of a list that begins with the code of a program. */
  lemma {:induction false} ListCorrect(ms: seq<ScopeMethod>, ss: seq<Statement>, r: Ending)
    requires ProgramOk(ms) && ProgramStatements(ms) <= ss && r != Unfinished
    requires NoRedefinition(ss) && Refs(ss) <= Table(ss).Keys && forall i | 0 <= i < |ss| :: ss[i].Code?
    requires CodeLen(ss) + HEADER_SIZE < W32 && CodeInPages(ss)
    ensures AllKnown(ss, Table(ss)) && ReadBytecode(Assembly(ss)).Some?
    ensures var l := ReadBytecode(Assembly(ss)).value;
      && (PagedEnds(StartOf(l), StatusOf(r)) <==> SourceEnds(ms, l.hb, r))
      && (PagedRunsForever(StartOf(l)) <==> SourceDiverges(ms, l.hb))
  {
    hide ProgramLoaded, ProgramStatements, CodeOf, Table, CodeLen, Ends, SourceEnds, RunsForever, SourceDiverges,
      MethodOk, Assembly, ReadBytecode, NoRedefinition, Refs, PagedEnds, PagedRunsForever, CodeInPages, RunCalm,
      Assembled, CodeStored;
    var im := ListIsLoaded(ss);
    var l := ReadBytecode(Assembly(ss)).value;
    var s := StartOf(l);
    LocalsFit(ms);
    ProgramIsLoaded(ms, ss, im);
    ProgramCorrect(im, l.mem, l.dataStart, l.hb, ms, r);
    DivergenceCorrect(im, l.mem, l.dataStart, l.hb, ms);
    forall k: nat
      ensures RunCalm(im.code, s, k)
    {
      ProgramCalm(im, l.mem, l.dataStart, l.hb, ms, k);
    }
    EndsOnPages(im.code, l.code, s, StatusOf(r));
  }

  /** Compile, assemble, load, run: a well-typed program whose code is shorter than 2^32 bytes assembles and its
      bytes load. When no immediate, label or local count in that code crosses a page end, the VM, fetching
      every instruction and header from its pages and keeping its frames in them, halts, or stops with an error,
      exactly as the source does, and runs forever exactly when the source does. */
  lemma {:induction false} CompiledProgramCorrect(ms: seq<ScopeMethod>, r: Ending)
    requires ProgramOk(ms) && CodeLen(ProgramStatements(ms)) + HEADER_SIZE < W32 && r != Unfinished
    requires CodeInPages(ProgramStatements(ms))
    ensures AllKnown(ProgramStatements(ms), Table(ProgramStatements(ms))) && ReadBytecode(ProgramBytes(ms)).Some?
    ensures var l := ReadBytecode(ProgramBytes(ms)).value;
      && (PagedEnds(StartOf(l), StatusOf(r)) <==> SourceEnds(ms, l.hb, r))
      && (PagedRunsForever(StartOf(l)) <==> SourceDiverges(ms, l.hb))
  {
    hide ProgramStatements, Table, CodeLen, SourceEnds, SourceDiverges, MethodOk, Assembly, ReadBytecode,
      NoRedefinition, Refs, PagedEnds, PagedRunsForever, CodeInPages;
    ProgramAccepted(ms);
    ListCorrect(ms, ProgramStatements(ms), r);
  }

  lemma {:induction false} LocalsFit(ms: seq<ScopeMethod>)
    requires ProgramOk(ms)
    ensures forall i | 0 <= i < |ms| :: ms[i].locals < W32
  {
    hide WellTypedStm, SoundStm, NeedStm;
  }
}
