/** Global data, from the data statements of the assembler to loadG and storeG: a datum is found behind its type
    byte at the address of its label, with the value it was given. */
module DataSection {
  import opened Words
  import opened Isa
  import opened FlatMemory
  import opened Arithmetic
  import opened Machine
  import opened Encoding
  import opened Assembler
  import opened Loading
  import opened Pages
  import opened PagedMachine

  // ---------------------------------------------------------------- globals in memory

  /** At address a, behind its type byte, the data region holds a global of a type with the given bits. */
  predicate Held(s: State, a: int, ty: Ty, w: int) {
    && 0 <= s.dataStart < a && a + Width(ty) <= s.hb < W32
    && GlobalTy(Get(s.mem, a - 1)) == Outcome.Ok(ty)
    && w == (if IsWide(ty) then Read64(s.mem, a) else Read32(s.mem, a))
  }

  /** loadG pushes the value of a global with the type of the global. */
  lemma {:induction false} LoadGlobal(code: Code, s: State, a: int, ty: Ty, w: int)
    requires Held(s, a, ty, w) && |s.stack| < MAX_OPERANDS
    ensures w >= 0 && Execute(code, s, LoadG(a)) == s.(stack := s.stack + [Arithmetic.Value.Value(ty, w)])
  {
    hide Read32, Get;
    assert Drop(s, 0) == s.stack;
  }

  /** storeG accepts exactly operands of the type of the global. Then the global holds the operand, cut to its
      width, and every other byte of memory is as it was. */
  lemma {:induction false} StoreGlobal(code: Code, s: State, a: int, ty: Ty, w: int, v: Arithmetic.Value,
          S: seq<Arithmetic.Value>)
    requires Held(s, a, ty, w) && s.stack == S + [v] && s.status == Running
    ensures var t := Execute(code, s, StoreG(a));
      && (t == s.Fail(Internal) <==> v.ty != ty)
      && (v.ty == ty ==>
            && t == s.(stack := S, mem := t.mem) && Held(t, a, ty, if IsWide(ty) then v.raw % W64 else v.raw % W32)
            && forall x | x < a || a + Width(ty) <= x :: Get(t.mem, x) == Get(s.mem, x))
  {
    hide Read32, Write32, Get;
    assert Drop(s, 1) == S && Top(s, 0) == v;
    if IsWide(ty) {
      CellStore64(s.mem, a, v.raw % W64);
    } else {
      CellStore32(s.mem, a, Low(v));
      Read32Write32(s.mem, a, Low(v));
      forall x | x < a || a + 4 <= x
        ensures Get(Write32(s.mem, a, Low(v)), x) == Get(s.mem, x)
      {
        Write32Elsewhere(s.mem, a, Low(v), x);
      }
    }
  }

  /** A store to one global leaves the others alone. */
  lemma {:induction false} OtherGlobals(s: State, t: State, a: int, n: nat, b: int, ty: Ty, w: int)
    requires Held(s, b, ty, w) && t.dataStart == s.dataStart && t.hb == s.hb
    requires forall x | x < a || a + n <= x :: Get(t.mem, x) == Get(s.mem, x)
    requires b + Width(ty) <= a - 1 || a + n <= b - 1
    ensures Held(t, b, ty, w)
  {
    hide Get;
  }

  /** A global whose bytes lie in one page is loaded and stored by the VM on its pages in the same way. */
  lemma {:induction false} GlobalOnPages(s: State, a: int, ty: Ty, w: int)
    requires Held(s, a, ty, w) && InOnePage(a, Width(ty))
    ensures PagedExecute(s, LoadG(a)) == Execute(NO_CODE, s, LoadG(a))
    ensures PagedExecute(s, StoreG(a)) == Execute(NO_CODE, s, StoreG(a))
  {
    hide Read32, Get, PagedRead, FlatRead, Push1;
    PagedReadIsFlat(s.mem, a, Width(ty));
    FlatRead32(s.mem, a);
    FlatRead64(s.mem, a);
  }

  // ---------------------------------------------------------------- what is loaded

  /** Bytes read as one number are the number that was written, cut to its width. */
  lemma {:induction false} BytesAsNumber(m: Mem, a: int, v: int, n: nat)
    requires forall i | 0 <= i < n :: Get(m, a + i) == LittleEndian(v, n)[i]
    ensures FlatRead(m, a, n) == v % Radix(n)
    decreases n
  {
    hide Get, Radix;
    var b := LittleEndian(v, n);
    FlatIsNumber(m, a, b);
    NumberOfLittleEndian(v, n);
  }

  lemma {:induction false} FlatIsNumber(m: Mem, a: int, b: Bytes)
    requires forall i | 0 <= i < |b| :: Get(m, a + i) == b[i]
    ensures FlatRead(m, a, |b|) == Number(b)
    decreases |b|
  {
    hide Get, Radix;
    if b != [] {
      var n := |b| - 1;
      FlatIsNumber(m, a, b[..n]);
      NumberSnoc(b);
    }
  }

  lemma {:induction false} NumberSnoc(b: Bytes)
    requires b != []
    ensures Number(b) == Number(b[..|b| - 1]) + Radix(|b| - 1) * b[|b| - 1]
    decreases |b|
  {
    var n := |b| - 1;
    if n > 0 {
      NumberSnoc(b[1..]);
      assert b[1..][..n - 1] == b[..n][1..] && b[1..][n - 1] == b[n];
      assert 256 * (Radix(n - 1) * b[n]) == Radix(n) * b[n];
    } else {
      assert Radix(0) * b[0] == b[0] && b[1..] == [];
    }
  }

  /** The bytes of a datum start one before the address of its label, in the data region of the loaded program. */
  lemma {:induction false} DatumBytes(ss: seq<Statement>, k: nat)
    requires Sectioned(ss) && NoRedefinition(ss) && AllKnown(ss, Table(ss)) && k < |ss| && ss[k].Data?
    requires CountedLen(ss) == DataLen(ss) && CodeLen(ss) + DataLen(ss) + HEADER_SIZE < W32
    ensures DataLabel(ss[k].name) in Table(ss) && ReadBytecode(Assembly(ss)).Some?
    ensures var l, a, b := ReadBytecode(Assembly(ss)).value, Table(ss)[DataLabel(ss[k].name)],
        EncodeDatum(ss[k].datum, Table(ss));
      && |b| == DatumSize(ss[k].datum) && 0 <= l.dataStart < a && a - 1 + |b| <= l.hb < W32
      && forall i | 0 <= i < |b| :: Get(l.mem, a - 1 + i) == b[i]
  {
    hide HeaderBytes, EncodeDatum, Get, Body, LittleEndian, CodeLen, DataLen, CountedLen;
    var table, at := Table(ss), |Body(ss[..k], Table(ss))|;
    LabelIsOffset(ss, k);
    PrefixCounted(ss, k);
    LoadAssembled(ss, table);
    BodyAt(ss, table, k);
    BodyLength(ss, table);
    BodyLength(ss[..k], table);
    CodeBeforeData(ss, k);
    var l, b := ReadBytecode(Assembly(ss)).value, EncodeDatum(ss[k].datum, table);
    assert EncodeStatement(ss[k], table) == b;
    forall i | 0 <= i < |b|
      ensures Get(l.mem, at + i) == b[i]
    {
      assert Body(ss, table)[at..at + |b|][i] == Body(ss, table)[at + i];
    }
  }

  lemma {:induction false} PrefixCounted(ss: seq<Statement>, k: nat)
    requires k <= |ss| && CountedLen(ss) == DataLen(ss)
    ensures CountedLen(ss[..k]) == DataLen(ss[..k])
  {
    hide CountedLen, DataLen;
    CountExact(ss);
    CountExact(ss[..k]);
  }

  /** A global variable, once assembled and loaded: at the address of its label the VM holds its value, with its
      type. A pointer datum holds the address of its target. */
  lemma {:induction false} GlobalLoaded(ss: seq<Statement>, k: nat, s: State)
    requires Sectioned(ss) && NoRedefinition(ss) && AllKnown(ss, Table(ss)) && k < |ss| && ss[k].Data?
    requires CountedLen(ss) == DataLen(ss) && CodeLen(ss) + DataLen(ss) + HEADER_SIZE < W32
    requires ReadBytecode(Assembly(ss)).Some? && !ss[k].datum.Text?
    requires var l := ReadBytecode(Assembly(ss)).value; s.mem == l.mem && s.dataStart == l.dataStart && s.hb == l.hb
    ensures DataLabel(ss[k].name) in Table(ss)
    ensures var a := Table(ss)[DataLabel(ss[k].name)];
      match ss[k].datum
      case Value(ty, v) => Held(s, a, ty, if IsWide(ty) then v % W64 else v % W32)
      case Address(name) => DataLabel(name) in Table(ss) && Held(s, a, PTR, Table(ss)[DataLabel(name)] % W32)
  {
    hide Get, Read32, Read64, Body, LittleEndian, CodeLen, DataLen, CountedLen, Number, Radix, FlatRead, HeaderBytes,
      ReadBytecode, NoRedefinition;
    DatumBytes(ss, k);
    var table, d := Table(ss), ss[k].datum;
    var a := table[DataLabel(ss[k].name)];
    assert Known(ss[k], table);
    var ty := if d.Value? then d.ty else PTR;
    var v := if d.Value? then d.v else table[DataLabel(d.name)];
    TypedNumber(s.mem, a, ty, v, EncodeDatum(d, table));
  }

  lemma {:induction false} TypedNumber(m: Mem, a: int, ty: Ty, v: int, b: Bytes)
    requires b == [TyByte(ty)] + LittleEndian(v, Width(ty))
    requires forall i | 0 <= i < |b| :: Get(m, a - 1 + i) == b[i]
    ensures GlobalTy(Get(m, a - 1)) == Outcome.Ok(ty)
    ensures if IsWide(ty) then Read64(m, a) == v % W64 else Read32(m, a) == v % W32
  {
    hide Get, Read32, Read64, LittleEndian, Radix, FlatRead;
    var n := Width(ty);
    forall i | 0 <= i < n
      ensures Get(m, a + i) == LittleEndian(v, n)[i]
    {
      assert Get(m, a - 1 + (i + 1)) == b[i + 1];
    }
    assert Get(m, a - 1 + 0) == b[0];
    BytesAsNumber(m, a, v, n);
    FlatRead32(m, a);
    FlatRead64(m, a);
    Radices();
  }

  /** A text stands in memory as its length and then its characters; its type byte is no type of an operand. */
  lemma {:induction false} TextLoaded(ss: seq<Statement>, k: nat)
    requires Sectioned(ss) && NoRedefinition(ss) && AllKnown(ss, Table(ss)) && k < |ss| && ss[k].Data?
    requires CountedLen(ss) == DataLen(ss) && CodeLen(ss) + DataLen(ss) + HEADER_SIZE < W32
    requires ss[k].datum.Text?
    ensures DataLabel(ss[k].name) in Table(ss) && ReadBytecode(Assembly(ss)).Some?
    ensures var m, a, chars := ReadBytecode(Assembly(ss)).value.mem, Table(ss)[DataLabel(ss[k].name)],
        ss[k].datum.chars;
      && Get(m, a - 1) == 7 && Read32(m, a) == |chars| && forall i | 0 <= i < |chars| :: Get(m, a + 4 + i) == chars[i]
  {
    hide Get, Read32, Body, LittleEndian, CodeLen, DataLen, CountedLen, Number, Radix, FlatRead, HeaderBytes,
      ReadBytecode, NoRedefinition;
    DatumBytes(ss, k);
    var m, a, chars := ReadBytecode(Assembly(ss)).value.mem, Table(ss)[DataLabel(ss[k].name)], ss[k].datum.chars;
    var b := EncodeDatum(ss[k].datum, Table(ss));
    assert b == [7] + LittleEndian(|chars|, 4) + chars;
    assert Get(m, a - 1 + 0) == b[0];
    forall i | 0 <= i < 4
      ensures Get(m, a + i) == LittleEndian(|chars|, 4)[i]
    {
      assert Get(m, a - 1 + (i + 1)) == b[i + 1];
    }
    forall i | 0 <= i < |chars|
      ensures Get(m, a + 4 + i) == chars[i]
    {
      assert Get(m, a - 1 + (i + 5)) == b[i + 5];
    }
    BytesAsNumber(m, a, |chars|, 4);
    FlatRead32(m, a);
    Radices();
  }
}
