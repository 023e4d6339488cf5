/** The VM's byte memory, read as one flat map from addresses to bytes.
    Unwritten addresses read as zero, as a page that was never allocated does. */
module FlatMemory {
  import opened Words

  type Mem = map<int, Byte>

  function Get(m: Mem, a: int): Byte {
    if a in m then m[a] else 0
  }

  function Read32(m: Mem, a: int): (r: int)
    ensures IsWord(r)
  {
    Get(m, a) + 0x100 * Get(m, a + 1) + 0x1_0000 * Get(m, a + 2) + 0x100_0000 * Get(m, a + 3)
  }

  function Read64(m: Mem, a: int): (r: int)
    ensures 0 <= r < W64
  {
    Read32(m, a) + W32 * Read32(m, a + 4)
  }

  function Write8(m: Mem, a: int, b: Byte): Mem {
    m[a := b]
  }

  function Write32(m: Mem, a: int, v: int): Mem {
    m[a := v % 0x100][a + 1 := v / 0x100 % 0x100][a + 2 := v / 0x1_0000 % 0x100][a + 3 := v / 0x100_0000 % 0x100]
  }

  function Write64(m: Mem, a: int, v: int): Mem {
    Write32(Write32(m, a, v % W32), a + 4, v / W32 % W32)
  }

  lemma {:induction false} Read32Write32(m: Mem, a: int, v: int)
    ensures Read32(Write32(m, a, v), a) == v % W32
  {
    FourBytes(v);
  }

  lemma {:induction false} FourBytes(v: int)
    ensures v % W32 == v % 0x100 + 0x100 * (v / 0x100 % 0x100) + 0x1_0000 * (v / 0x1_0000 % 0x100)
      + 0x100_0000 * (v / 0x100_0000 % 0x100)
  {
    LowByteFirst(v, 0x100_0000);
    LowByteFirst(v / 0x100, 0x1_0000);
    LowByteFirst(v / 0x100 / 0x100, 0x100);
    DivideTwice(v, 0x100);
    DivideTwice(v, 0x1_0000);
    DivideTwice(v / 0x100, 0x100);
  }

  lemma {:induction false} Read32Other(m: Mem, a: int, v: int, b: int)
    requires b + 4 <= a || a + 4 <= b
    ensures Read32(Write32(m, a, v), b) == Read32(m, b)
  {
  }

  lemma {:induction false} Read64Write64(m: Mem, a: int, v: int)
    requires 0 <= v < W64
    ensures Read64(Write64(m, a, v), a) == v
  {
    hide Read32, Write32, Get;
    var m1 := Write32(m, a, v % W32);
    Read32Write32(m, a, v % W32);
    Read32Other(m1, a + 4, v / W32 % W32, a);
    Read32Write32(m1, a + 4, v / W32 % W32);
    TwoWords(v);
  }

  lemma {:induction false} TwoWords(v: int)
    requires 0 <= v < W64
    ensures v % W32 % W32 + W32 * (v / W32 % W32 % W32) == v
  {
  }

  lemma {:induction false} Read64Other(m: Mem, a: int, v: int, b: int)
    requires b + 8 <= a || a + 8 <= b
    ensures Read64(Write64(m, a, v), b) == Read64(m, b)
  {
    Read32Other64(m, a, v, b);
    Read32Other64(m, a, v, b + 4);
  }

  lemma {:induction false} Read32Other64(m: Mem, a: int, v: int, b: int)
    requires b + 4 <= a || a + 8 <= b
    ensures Read32(Write64(m, a, v), b) == Read32(m, b)
  {
    Read32Other(m, a, v % W32, b);
    Read32Other(Write32(m, a, v % W32), a + 4, v / W32 % W32, b);
  }

  /** A four-byte store into an eight-byte cell whose high half is zero leaves the stored word there:
      what the `store` through an `addrL` pointer relies on. */
  lemma {:induction false} Store32Load64(m: Mem, a: int, v: int)
    requires Read64(m, a) < W32
    ensures Read64(Write32(m, a, v), a) == v % W32
  {
    Read32Write32(m, a, v);
    Read32Other(m, a, v, a + 4);
  }

  lemma {:induction false} Store32Other64(m: Mem, a: int, v: int, b: int)
    requires b + 8 <= a || a + 4 <= b
    ensures Read64(Write32(m, a, v), b) == Read64(m, b)
  {
    Read32Other(m, a, v, b);
    Read32Other(m, a, v, b + 4);
  }

  lemma {:induction false} Write32Elsewhere(m: Mem, p: int, v: int, a: int)
    requires a < p || p + 4 <= a
    ensures Get(Write32(m, p, v), a) == Get(m, a)
  {
  }

  lemma {:induction false} Write64Elsewhere(m: Mem, p: int, v: int, a: int)
    requires a < p || p + 8 <= a
    ensures Get(Write64(m, p, v), a) == Get(m, a)
  {
    Write32Elsewhere(m, p, v % W32, a);
    Write32Elsewhere(Write32(m, p, v % W32), p + 4, v / W32 % W32, a);
  }

  /** m' is m with the eight-byte cell at p holding w, and nothing outside the cell changed. */
  ghost predicate CellUpdate(m: Mem, m': Mem, p: int, w: int) {
    && Read64(m', p) == w
    && (forall b | b + 8 <= p || p + 8 <= b :: Read64(m', b) == Read64(m, b))
    && (forall a | a < p || p + 8 <= a :: Get(m', a) == Get(m, a))
  }

  lemma {:induction false} CellStore64(m: Mem, p: int, w: int)
    requires 0 <= w < W64
    ensures CellUpdate(m, Write64(m, p, w), p, w)
  {
    Read64Write64(m, p, w);
    forall b | b + 8 <= p || p + 8 <= b
      ensures Read64(Write64(m, p, w), b) == Read64(m, b)
    {
      Read64Other(m, p, w, b);
    }
    forall a | a < p || p + 8 <= a
      ensures Get(Write64(m, p, w), a) == Get(m, a)
    {
      Write64Elsewhere(m, p, w, a);
    }
  }

  /** A four-byte store keeps the high half of the cell. */
  lemma {:induction false} CellStore32(m: Mem, p: int, w: int)
    requires IsWord(w)
    ensures CellUpdate(m, Write32(m, p, w), p, w + W32 * Read32(m, p + 4))
  {
    Read32Write32(m, p, w);
    Read32Other(m, p, w, p + 4);
    forall b | b + 8 <= p || p + 8 <= b
      ensures Read64(Write32(m, p, w), b) == Read64(m, b)
    {
      Store32Other64(m, p, w, b);
    }
    forall a | a < p || p + 8 <= a
      ensures Get(Write32(m, p, w), a) == Get(m, a)
    {
      Write32Elsewhere(m, p, w, a);
    }
  }
}
