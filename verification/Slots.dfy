/** Slot assignment over the tree of scopes, whatever order the symbol maps are walked in. */
module Slots {
  import opened Words
  import opened Isa
  import opened Source
  import opened Frames

  /** Arguments have positive slots from their declaration on; locals start at zero. */
  datatype Symbol = Symbol(ty: Type, slot: int)

  predicate IsArgument(s: Symbol) {
    s.slot > 0
  }

  /** A scope and the scopes inside it, as values. */
  datatype Tree = Tree(symbols: map<string, Symbol>, children: seq<Tree>)

  function Locals(symbols: map<string, Symbol>): set<string> {
    set id | id in symbols && !IsArgument(symbols[id])
  }

  /** calculateNumberOfLocalSlots. */
  function SlotsNeeded(t: Tree, current: nat): (n: nat)
    ensures n >= current + |Locals(t.symbols)|
    decreases t, 0
  {
    var here := current + |Locals(t.symbols)|;
    Deepest(t.children, here, here)
  }

  /** The maximum of a start value and what the children need. */
  function Deepest(ts: seq<Tree>, current: nat, least: nat): (n: nat)
    ensures n >= least
    decreases ts
  {
    if ts == [] then least else Max(Deepest(ts[..|ts| - 1], current, least), SlotsNeeded(ts[|ts| - 1], current))
  }

  // ---------------------------------------------------------------- assignment

  /** Some walk over the local symbols of one scope gave them start, start - 1, ...; nothing else changed. */
  ghost predicate Numbered(before: map<string, Symbol>, after: map<string, Symbol>, start: int) {
    && after.Keys == before.Keys
    && (forall id | id in before :: IsArgument(before[id]) ==> after[id] == before[id])
    && (forall id | id in before :: after[id].ty == before[id].ty)
    && exists order: seq<string> :: Walk(before, after, start, order)
  }

  ghost predicate Walk(before: map<string, Symbol>, after: map<string, Symbol>, start: int, order: seq<string>) {
    && after.Keys == before.Keys
    && (forall i, j | 0 <= i < j < |order| :: order[i] != order[j])
    && (forall id :: id in order <==> id in Locals(before))
    && (forall k | 0 <= k < |order| :: order[k] in after && after[order[k]].slot == start - k)
  }

  ghost predicate Assigned(t: Tree, u: Tree, start: int)
    decreases t
  {
    && Numbered(t.symbols, u.symbols, start)
    && |u.children| == |t.children|
    && forall i | 0 <= i < |t.children| :: Assigned(t.children[i], u.children[i], start - |Locals(t.symbols)|)
  }

  lemma {:induction false} WalkLength(s: seq<string>, ids: set<string>)
    requires (forall i, j | 0 <= i < j < |s| :: s[i] != s[j]) && forall id :: id in s <==> id in ids
    ensures |s| == |ids|
    decreases |s|
  {
    if s != [] {
      var last, rest := s[|s| - 1], s[..|s| - 1];
      assert forall id :: id in rest <==> id in ids - {last} by {
        forall id
          ensures id in rest <==> id in ids - {last}
        {
          if id in ids - {last} {
            var k :| 0 <= k < |s| && s[k] == id;
            assert rest[k] == id;
          }
        }
      }
      WalkLength(rest, ids - {last});
    } else {
      assert ids == {};
    }
  }

  /** In one scope: the slots of the locals are distinct and fill the range below start. */
  lemma {:induction false} ScopeSlots(before: map<string, Symbol>, after: map<string, Symbol>, start: int)
    requires Numbered(before, after, start)
    ensures forall id | id in Locals(before) :: start - |Locals(before)| < after[id].slot <= start
    ensures forall x, y | x in Locals(before) && y in Locals(before) && after[x].slot == after[y].slot :: x == y
  {
    var order :| Walk(before, after, start, order);
    WalkLength(order, Locals(before));
  }

  lemma {:induction false} SlotTaken(before: map<string, Symbol>, after: map<string, Symbol>, start: int, slot: int)
    returns (id: string)
    requires Numbered(before, after, start) && start - |Locals(before)| < slot <= start
    ensures id in Locals(before) && id in after && after[id].slot == slot
  {
    var order :| Walk(before, after, start, order);
    WalkLength(order, Locals(before));
    id := order[start - slot];
  }

  // ---------------------------------------------------------------- paths

  /** A path names a scope by child positions from the root. */
  predicate IsPath(t: Tree, p: seq<nat>)
    decreases |p|
  {
    p == [] || (p[0] < |t.children| && IsPath(t.children[p[0]], p[1..]))
  }

  function ScopeAt(t: Tree, p: seq<nat>): Tree
    requires IsPath(t, p)
    decreases |p|
  {
    if p == [] then t else ScopeAt(t.children[p[0]], p[1..])
  }

  /** Locals declared in the scopes strictly above the one at a path. */
  function Above(t: Tree, p: seq<nat>): nat
    requires IsPath(t, p)
    decreases |p|
  {
    if p == [] then 0 else |Locals(t.symbols)| + Above(t.children[p[0]], p[1..])
  }

  lemma {:induction false} AssignedAt(t: Tree, u: Tree, start: int, p: seq<nat>)
    requires Assigned(t, u, start) && IsPath(t, p)
    ensures IsPath(u, p) && Assigned(ScopeAt(t, p), ScopeAt(u, p), start - Above(t, p))
    decreases |p|
  {
    hide Numbered;
    if p != [] {
      AssignedAt(t.children[p[0]], u.children[p[0]], start - |Locals(t.symbols)|, p[1..]);
    }
  }

  lemma {:induction false} PrefixPath(t: Tree, p: seq<nat>, m: nat)
    requires IsPath(t, p) && m < |p|
    ensures IsPath(t, p[..m]) && Above(t, p) >= Above(t, p[..m]) + |Locals(ScopeAt(t, p[..m]).symbols)|
    decreases |p|
  {
    if m > 0 {
      PrefixPath(t.children[p[0]], p[1..], m - 1);
      assert p[1..][..m - 1] == p[..m][1..];
    } else {
      assert p[..m] == [];
    }
  }

  lemma {:induction false} NeededAt(t: Tree, current: nat, p: seq<nat>)
    requires IsPath(t, p)
    ensures current + Above(t, p) + |Locals(ScopeAt(t, p).symbols)| <= SlotsNeeded(t, current)
    decreases |p|
  {
    if p != [] {
      var here := current + |Locals(t.symbols)|;
      NeededAt(t.children[p[0]], here, p[1..]);
      ChildNeeds(t.children, here, here, p[0]);
    }
  }

  lemma {:induction false} ChildNeeds(ts: seq<Tree>, current: nat, least: nat, i: nat)
    requires i < |ts|
    ensures SlotsNeeded(ts[i], current) <= Deepest(ts, current, least)
    decreases |ts|
  {
    if i < |ts| - 1 {
      ChildNeeds(ts[..|ts| - 1], current, least, i);
    }
  }

  lemma {:induction false} DeepestChild(ts: seq<Tree>, current: nat, least: nat) returns (i: nat)
    requires Deepest(ts, current, least) != least
    ensures i < |ts| && SlotsNeeded(ts[i], current) == Deepest(ts, current, least)
    decreases |ts|
  {
    i := |ts| - 1;
    if SlotsNeeded(ts[i], current) != Deepest(ts, current, least) {
      i := DeepestChild(ts[..|ts| - 1], current, least);
    }
  }

  // ---------------------------------------------------------------- main properties

  /** Two locals in scope at the same time have different slots: y in the scope at a path, x in a scope on
      the way there. */
  lemma {:induction false} SlotsDistinct(t: Tree, u: Tree, start: int, p: seq<nat>, m: nat, x: string, y: string)
    requires Assigned(t, u, start) && IsPath(t, p) && m <= |p| && IsPath(t, p[..m])
    requires x in Locals(ScopeAt(t, p[..m]).symbols) && y in Locals(ScopeAt(t, p).symbols) && (m < |p| || x != y)
    ensures IsPath(u, p) && IsPath(u, p[..m]) && x in ScopeAt(u, p[..m]).symbols && y in ScopeAt(u, p).symbols
    ensures ScopeAt(u, p[..m]).symbols[x].slot != ScopeAt(u, p).symbols[y].slot
  {
    hide Numbered;
    AssignedAt(t, u, start, p);
    AssignedAt(t, u, start, p[..m]);
    SlotRange(t, u, start, p, y);
    SlotRange(t, u, start, p[..m], x);
    if m < |p| {
      PrefixPath(t, p, m);
    } else {
      assert p[..m] == p;
      ScopeSlots(ScopeAt(t, p).symbols, ScopeAt(u, p).symbols, start - Above(t, p));
    }
  }

  lemma {:induction false} SlotRange(t: Tree, u: Tree, start: int, p: seq<nat>, x: string)
    requires Assigned(t, u, start) && IsPath(t, p) && x in Locals(ScopeAt(t, p).symbols)
    ensures IsPath(u, p) && x in ScopeAt(u, p).symbols
    ensures start - Above(t, p) - |Locals(ScopeAt(t, p).symbols)| < ScopeAt(u, p).symbols[x].slot <= start - Above(t, p)
  {
    AssignedAt(t, u, start, p);
    ScopeSlots(ScopeAt(t, p).symbols, ScopeAt(u, p).symbols, start - Above(t, p));
  }

  /** The largest slot magnitude is the number of slots the frame gets: no local is below it, and one
      reaches it. */
  lemma {:induction false} SlotsFit(t: Tree, u: Tree, p: seq<nat>, x: string)
    requires Assigned(t, u, -1) && IsPath(t, p) && x in Locals(ScopeAt(t, p).symbols)
    ensures IsPath(u, p) && x in ScopeAt(u, p).symbols
    ensures -(SlotsNeeded(t, 0) as int) <= ScopeAt(u, p).symbols[x].slot <= -1
  {
    SlotRange(t, u, -1, p, x);
    NeededAt(t, 0, p);
  }

  lemma {:induction false} LastSlotUsed(t: Tree, u: Tree) returns (p: seq<nat>, x: string)
    requires Assigned(t, u, -1) && SlotsNeeded(t, 0) > 0
    ensures IsPath(t, p) && IsPath(u, p) && x in ScopeAt(u, p).symbols
    ensures ScopeAt(u, p).symbols[x].slot == -(SlotsNeeded(t, 0) as int)
  {
    p := DeepestNonEmpty(t, 0);
    AssignedAt(t, u, -1, p);
    var n, s := |Locals(ScopeAt(t, p).symbols)|, -1 - Above(t, p);
    x := SlotTaken(ScopeAt(t, p).symbols, ScopeAt(u, p).symbols, s, s - n + 1);
  }

  lemma {:induction false} DeepestNonEmpty(t: Tree, current: nat) returns (p: seq<nat>)
    requires SlotsNeeded(t, current) > current
    ensures IsPath(t, p) && current + Above(t, p) + |Locals(ScopeAt(t, p).symbols)| == SlotsNeeded(t, current)
    ensures |Locals(ScopeAt(t, p).symbols)| > 0
    decreases t
  {
    var here := current + |Locals(t.symbols)|;
    if SlotsNeeded(t, current) == here {
      p := [];
    } else {
      var i := DeepestChild(t.children, here, here);
      p := DeepestNonEmpty(t.children[i], here);
      p := [i] + p;
    }
  }

  /** Every slot the code generator can emit for the scope at a path passes the VM's frame check and lies
      in the frame's own cells: locals in [SP, FP), arguments above the base cell. */
  lemma {:induction false} SlotInFrame(t: Tree, u: Tree, p: seq<nat>, x: string, c: CallState, args: Byte)
    requires Assigned(t, u, -1) && IsPath(t, p) && x in ScopeAt(t, p).symbols
    requires c.frames != [] && c.frames[|c.frames| - 1] == FrameInfo(args, SlotsNeeded(t, 0))
    requires IsArgument(ScopeAt(t, p).symbols[x]) ==> ScopeAt(t, p).symbols[x].slot <= args
    requires 0 <= c.sp && c.fp == c.sp + 8 * SlotsNeeded(t, 0) && c.fp + 8 * args + 8 <= MAX_ADDR
    ensures IsPath(u, p) && x in ScopeAt(u, p).symbols
    ensures var slot := ScopeAt(u, p).symbols[x].slot;
      && SlotAddress(c, slot) == Outcome.Ok(c.fp + 8 * slot)
      && (if slot < 0 then c.sp <= c.fp + 8 * slot && c.fp + 8 * slot + 8 <= c.fp
          else c.fp + 8 <= c.fp + 8 * slot && c.fp + 8 * slot + 8 <= c.sp + FrameSize(c.frames[|c.frames| - 1]))
  {
    AssignedAt(t, u, -1, p);
    if x in Locals(ScopeAt(t, p).symbols) {
      SlotsFit(t, u, p, x);
    }
  }

  // ---------------------------------------------------------------- the scope tree in memory

  class Scope {
    var symbols: map<string, Symbol>
    var children: seq<Scope>
    ghost var Repr: set<Scope>

    ghost predicate Valid()
      reads this, Repr
      decreases Repr
    {
      && this in Repr
      && (forall i | 0 <= i < |children| ::
            children[i] in Repr && children[i].Repr <= Repr && this !in children[i].Repr && children[i].Valid())
      && (forall i, j | 0 <= i < j < |children| :: children[i].Repr !! children[j].Repr)
    }

    ghost function Snapshot(): Tree
      requires Valid()
      reads this, Repr
      decreases Repr
    {
      Tree(symbols, seq(|children|, i requires 0 <= i < |children| reads this, Repr requires Valid() =>
        children[i].Snapshot()))
    }

    constructor (symbols: map<string, Symbol>)
      ensures Valid() && fresh(Repr) && Snapshot() == Tree(symbols, [])
    {
      this.symbols, children, Repr := symbols, [], {this};
    }

    /** The walk over an unordered map: any symbol not yet visited may come next. */
    method NumberSymbols(startingSlot: int) returns (currentSlot: int)
      requires startingSlot <= -1
      modifies this`symbols
      ensures Numbered(old(symbols), symbols, startingSlot) && currentSlot == startingSlot - |Locals(old(symbols))|
    {
      currentSlot := startingSlot;
      ghost var before := symbols;
      var remaining := symbols.Keys;
      ghost var order := [];
      while remaining != {}
        invariant remaining <= before.Keys && symbols.Keys == before.Keys
        invariant forall id | id in before ::
          (IsArgument(before[id]) || id in remaining ==> symbols[id] == before[id]) && symbols[id].ty == before[id].ty
        invariant forall i, j | 0 <= i < j < |order| :: order[i] != order[j]
        invariant forall id :: id in order <==> id in Locals(before) && id !in remaining
        invariant forall k | 0 <= k < |order| :: order[k] in symbols && symbols[order[k]].slot == startingSlot - k
        invariant currentSlot == startingSlot - |order|
        decreases |remaining|
      {
        var id :| id in remaining;
        remaining := remaining - {id};
        if !IsArgument(symbols[id]) {
          symbols := symbols[id := symbols[id].(slot := currentSlot)];
          order := order + [id];
          currentSlot := currentSlot - 1;
        }
      }
      assert Walk(before, symbols, startingSlot, order);
      WalkLength(order, Locals(before));
    }

    method AssignSlotsToLocalSymbols(startingSlot: int)
      requires Valid() && startingSlot <= -1
      modifies Repr
      ensures Valid() && Repr == old(Repr) && Assigned(old(Snapshot()), Snapshot(), startingSlot)
      decreases Repr, 1
    {
      hide Numbered, Locals;
      var currentSlot := NumberSymbols(startingSlot);
      AssignSlotsToChildren(currentSlot);
    }

    method AssignSlotsToChildren(currentSlot: int)
      requires Valid() && currentSlot <= -1
      modifies Repr
      ensures Valid() && Repr == old(Repr) && symbols == old(symbols) && children == old(children)
      ensures forall j | 0 <= j < |children| ::
        Assigned(old(Snapshot()).children[j], Snapshot().children[j], currentSlot)
      decreases Repr, 0
    {
      hide Assigned;
      ghost var t := Snapshot();
      var i := 0;
      while i < |children|
        invariant 0 <= i <= |children| && children == old(children) && Repr == old(Repr) && symbols == old(symbols)
        invariant Valid()
        invariant forall j | 0 <= j < |children| :: children[j].Repr == old(children[j].Repr)
        invariant forall j | 0 <= j < i :: Assigned(t.children[j], children[j].Snapshot(), currentSlot)
        invariant forall j | i <= j < |children| :: children[j].Snapshot() == t.children[j]
      {
        children[i].AssignSlotsToLocalSymbols(currentSlot);
        i := i + 1;
      }
    }

    method CalculateNumberOfLocalSlots(currentSlots: nat) returns (slots: nat)
      requires Valid()
      ensures slots == SlotsNeeded(Snapshot(), currentSlots)
      decreases Repr
    {
      hide Locals;
      ghost var t := Snapshot();
      var maxLocalSlots := CountLocals(currentSlots);
      slots := maxLocalSlots;
      var i := 0;
      while i < |children|
        invariant 0 <= i <= |children|
        invariant slots == Deepest(t.children[..i], maxLocalSlots, maxLocalSlots)
      {
        var needed := children[i].CalculateNumberOfLocalSlots(maxLocalSlots);
        slots := Max(slots, needed);
        assert t.children[..i + 1][..i] == t.children[..i];
        i := i + 1;
      }
      assert t.children[..i] == t.children;
    }

    /** The loop over the symbols. */
    method CountLocals(currentSlots: nat) returns (maxLocalSlots: nat)
      ensures maxLocalSlots == currentSlots + |Locals(symbols)|
    {
      maxLocalSlots := currentSlots;
      var remaining := symbols.Keys;
      while remaining != {}
        invariant remaining <= symbols.Keys
        invariant maxLocalSlots == currentSlots + |Locals(symbols) - remaining|
        decreases |remaining|
      {
        var id :| id in remaining;
        CountOne(Locals(symbols), remaining, id);
        remaining := remaining - {id};
        if !IsArgument(symbols[id]) {
          maxLocalSlots := maxLocalSlots + 1;
        }
      }
      assert Locals(symbols) - remaining == Locals(symbols);
    }
  }

  lemma {:induction false} CountOne(ids: set<string>, remaining: set<string>, id: string)
    requires id in remaining
    ensures |ids - (remaining - {id})| == |ids - remaining| + if id in ids then 1 else 0
  {
    var less := ids - remaining;
    assert ids - (remaining - {id}) == if id in ids then less + {id} else less;
  }
}
