/** Pages of 4096 bytes, and what an access that looks up only one of them reads and writes.

    An access of several bytes looks up one page only. Reading past the end of a page continues at the
    start of the same page; writing past it leaves the page array, which C++ does not define. */
module Pages {
  import opened Words
  import opened Isa
  import opened FlatMemory
  import opened Encoding

  const PAGE_SIZE := 4096

  /** An address and its distance from the start of its page. */
  function PageOffset(a: int): int {
    a % PAGE_SIZE
  }

  /** Whether n bytes at an address lie in one page. */
  predicate InOnePage(a: int, n: nat) {
    PageOffset(a) + n <= PAGE_SIZE
  }

  /** The address the i-th byte of a read really comes from. */
  function Wrapped(a: int, i: nat): int {
    a / PAGE_SIZE * PAGE_SIZE + (a + i) % PAGE_SIZE
  }

  /** n bytes read the way read32 and read64 do, as a number. */
  function PagedRead(m: Mem, a: int, n: nat): nat {
    if n == 0 then 0 else PagedRead(m, a, n - 1) + Radix(n - 1) * Get(m, Wrapped(a, n - 1))
  }

  /** n bytes read one after the other, as a number. */
  function FlatRead(m: Mem, a: int, n: nat): nat {
    if n == 0 then 0 else FlatRead(m, a, n - 1) + Radix(n - 1) * Get(m, a + n - 1)
  }

  /** n bytes stored one after the other. */
  function StoreBytes(m: Mem, a: int, v: int, n: nat): Mem {
    if n == 0 then m else StoreBytes(m, a, v, n - 1)[a + n - 1 := v / Radix(n - 1) % 256]
  }

  // ---------------------------------------------------------------- against the flat memory

  lemma {:induction false} WrappedInPage(a: int, i: nat, n: nat)
    requires InOnePage(a, n) && i < n
    ensures Wrapped(a, i) == a + i
  {
    var q, r := a / PAGE_SIZE, a % PAGE_SIZE;
    assert a + i == q * PAGE_SIZE + (r + i);
    ModUnique(a + i, PAGE_SIZE, q, r + i);
  }

  lemma {:induction false} Radixes()
    ensures Radix(0) == 1 && Radix(1) == 0x100 && Radix(2) == 0x1_0000 && Radix(3) == 0x100_0000 && Radix(4) == W32
    ensures Radix(5) == W32 * 0x100 && Radix(6) == W32 * 0x1_0000 && Radix(7) == W32 * 0x100_0000
  {
    assert Radix(2) == 256 * Radix(1);
    assert Radix(3) == 256 * Radix(2);
    assert Radix(4) == 256 * Radix(3);
    assert Radix(5) == 256 * Radix(4);
    assert Radix(6) == 256 * Radix(5);
    assert Radix(7) == 256 * Radix(6);
  }

  lemma {:induction false} FlatRead32(m: Mem, a: int)
    ensures FlatRead(m, a, 4) == Read32(m, a)
  {
    hide Get, Radix;
    Radixes();
    assert FlatRead(m, a, 1) == FlatRead(m, a, 0) + Radix(0) * Get(m, a);
    assert FlatRead(m, a, 2) == FlatRead(m, a, 1) + Radix(1) * Get(m, a + 1);
    assert FlatRead(m, a, 3) == FlatRead(m, a, 2) + Radix(2) * Get(m, a + 2);
  }

  lemma {:induction false} FlatRead64(m: Mem, a: int)
    ensures FlatRead(m, a, 8) == Read64(m, a)
  {
    hide Get, Radix;
    Radixes();
    FlatRead32(m, a);
    assert FlatRead(m, a, 5) == FlatRead(m, a, 4) + Radix(4) * Get(m, a + 4);
    assert FlatRead(m, a, 6) == FlatRead(m, a, 5) + Radix(5) * Get(m, a + 5);
    assert FlatRead(m, a, 7) == FlatRead(m, a, 6) + Radix(6) * Get(m, a + 6);
  }

  /** The next digit in front of a number below the radix. */
  lemma {:induction false} NextDigit(p: int, r: int, x: Byte)
    requires 0 <= p < r
    ensures 0 <= p + r * x < 256 * r
  {
    Monotone(r, 0, x);
    Monotone(r, x, 255);
  }

  lemma {:induction false} Monotone(r: int, x: int, y: int)
    requires r >= 0 && x <= y
    ensures r * x <= r * y
  {
    assert 0 <= r * (y - x);
  }

  lemma {:induction false} ReadsBounded(m: Mem, a: int, n: nat)
    ensures 0 <= PagedRead(m, a, n) < Radix(n) && 0 <= FlatRead(m, a, n) < Radix(n)
    decreases n
  {
    hide Get, Wrapped;
    if n > 0 {
      ReadsBounded(m, a, n - 1);
      NextDigit(PagedRead(m, a, n - 1), Radix(n - 1), Get(m, Wrapped(a, n - 1)));
      NextDigit(FlatRead(m, a, n - 1), Radix(n - 1), Get(m, a + n - 1));
    }
  }

  lemma {:induction false} SameDigits(p: int, q: int, r: int, x: Byte, y: Byte)
    requires 0 <= p < r && 0 <= q < r
    ensures p + r * x == q + r * y <==> p == q && x == y
  {
    if x != y {
      DigitsApart(p, q, r, Min(x, y), Max(x, y));
      DigitsApart(q, p, r, Min(x, y), Max(x, y));
    }
  }

  function Min(x: int, y: int): int {
    if x < y then x else y
  }

  lemma {:induction false} DigitsApart(p: int, q: int, r: int, x: int, y: int)
    requires 0 <= p < r && 0 <= q < r && x < y
    ensures p + r * x < q + r * y
  {
    Monotone(r, x + 1, y);
  }

  /** A read agrees with the flat one on the memory at hand exactly when the bytes it wraps around to are those
      it should have read. */
  lemma {:induction false} SameBytes(m: Mem, a: int, n: nat)
    ensures PagedRead(m, a, n) == FlatRead(m, a, n) <==> forall i: nat | i < n :: Get(m, Wrapped(a, i)) == Get(m, a + i)
    decreases n
  {
    hide Get, Wrapped, Radix;
    if n > 0 {
      SameBytes(m, a, n - 1);
      ReadsBounded(m, a, n - 1);
      SameDigits(PagedRead(m, a, n - 1), FlatRead(m, a, n - 1), Radix(n - 1), Get(m, Wrapped(a, n - 1)),
        Get(m, a + n - 1));
      assert a + (n - 1) == a + n - 1;
    }
  }

  /** Inside one page a read of any length is the flat read. */
  lemma {:induction false} PagedReadIsFlat(m: Mem, a: int, n: nat)
    requires InOnePage(a, n)
    ensures PagedRead(m, a, n) == FlatRead(m, a, n)
    decreases n
  {
    hide Get, Radix, Wrapped;
    if n > 0 {
      PagedReadIsFlat(m, a, n - 1);
      WrappedInPage(a, n - 1, n);
    }
  }

  /** The condition is exact: a read of n bytes agrees with the flat memory whatever that holds if and only
      if it stays in one page. */
  lemma {:induction false} PagedReadExact(a: int, n: nat)
    requires n > 0
    ensures InOnePage(a, n) <==> forall m: Mem :: PagedRead(m, a, n) == FlatRead(m, a, n)
  {
    hide Radix, Get;
    if InOnePage(a, n) {
      forall m: Mem
        ensures PagedRead(m, a, n) == FlatRead(m, a, n)
      {
        PagedReadIsFlat(m, a, n);
      }
    } else {
      StraddlingRead(a, n);
    }
  }

  /** The byte behind the page end is missed: a memory that holds a single one there reads as zero. */
  lemma {:induction false} StraddlingRead(a: int, n: nat)
    requires n > 0 && !InOnePage(a, n)
    ensures var m: Mem := map[a + n - 1 := 1]; PagedRead(m, a, n) == 0 && FlatRead(m, a, n) == Radix(n - 1)
  {
    hide Radix;
    var m: Mem := map[a + n - 1 := 1];
    var q, r := a / PAGE_SIZE, a % PAGE_SIZE;
    ZeroReads(m, a, n, a + n - 1);
    BytesBelow(m, a, n - 1, a + n - 1);
  }

  lemma {:induction false} ZeroReads(m: Mem, a: int, n: nat, last: int)
    requires m.Keys == {last} && last >= (a / PAGE_SIZE + 1) * PAGE_SIZE
    ensures PagedRead(m, a, n) == 0
    decreases n
  {
    hide Radix;
    if n > 0 {
      ZeroReads(m, a, n - 1, last);
      WrappedBelow(a, n - 1);
    }
  }

  lemma {:induction false} BytesBelow(m: Mem, a: int, n: nat, last: int)
    requires m.Keys == {last} && a + n <= last
    ensures FlatRead(m, a, n) == 0
    decreases n
  {
    hide Radix;
    if n > 0 {
      BytesBelow(m, a, n - 1, last);
    }
  }

  lemma {:induction false} WrappedBelow(a: int, i: nat)
    ensures Wrapped(a, i) < (a / PAGE_SIZE + 1) * PAGE_SIZE
  {
  }

  // ---------------------------------------------------------------- whole runs of accesses

  datatype Access = ReadAt(a: int, n: nat) | WriteAt(a: int, v: int, n: nat)

  /** Memory after the accesses and the numbers that were read. */
  function FlatRun(m: Mem, accesses: seq<Access>): (Mem, seq<int>)
    decreases |accesses|
  {
    if accesses == [] then (m, [])
    else
      match accesses[0]
      case ReadAt(a, n) => var (m', r) := FlatRun(m, accesses[1..]); (m', [FlatRead(m, a, n)] + r)
      case WriteAt(a, v, n) => FlatRun(StoreBytes(m, a, v, n), accesses[1..])
  }

  /** The same on pages, as the memory manager does it. */
  function PagedRun(m: Mem, accesses: seq<Access>): Outcome<(Mem, seq<int>)>
    decreases |accesses|
  {
    if accesses == [] then Ok((m, []))
    else
      match accesses[0]
      case ReadAt(a, n) => (
        match PagedRun(m, accesses[1..])
        case Ok((m', r)) => Ok((m', [PagedRead(m, a, n)] + r))
        case Err(f) => Err(f))
      case WriteAt(a, v, n) => if InOnePage(a, n) then PagedRun(StoreBytes(m, a, v, n), accesses[1..])
                               else Err(Undefined)
  }

  /** A run is defined exactly when no write crosses a page boundary; when no read does either, it reads
      and leaves what it does on the flat memory. */
  lemma {:induction false} PagedRunIsFlat(m: Mem, accesses: seq<Access>)
    ensures PagedRun(m, accesses).Ok? <==> forall i | 0 <= i < |accesses| && accesses[i].WriteAt? ::
      InOnePage(accesses[i].a, accesses[i].n)
    ensures (forall i | 0 <= i < |accesses| :: InOnePage(accesses[i].a, accesses[i].n)) ==>
      PagedRun(m, accesses) == Outcome.Ok(FlatRun(m, accesses))
    ensures PagedRun(m, accesses).Ok? ==> PagedRun(m, accesses).value.0 == FlatRun(m, accesses).0
    decreases |accesses|
  {
    hide StoreBytes, PagedRead, FlatRead, InOnePage;
    if accesses != [] {
      var first, rest := accesses[0], accesses[1..];
      assert forall i | 1 <= i < |accesses| :: accesses[i] == rest[i - 1];
      assert forall i | 0 <= i < |rest| :: rest[i] == accesses[i + 1];
      match first
      case ReadAt(a, n) =>
        PagedRunIsFlat(m, rest);
        if InOnePage(a, n) {
          PagedReadIsFlat(m, a, n);
        }
      case WriteAt(a, v, n) =>
        PagedRunIsFlat(StoreBytes(m, a, v, n), rest);
    }
  }

  lemma {:induction false} StoreFourBytes(m: Mem, a: int, v: int)
    ensures StoreBytes(m, a, v, 4) == FlatMemory.Write32(m, a, v)
  {
    hide Radix;
    Radixes();
    assert StoreBytes(m, a, v, 1) == m[a := v % 0x100];
    assert StoreBytes(m, a, v, 2) == m[a := v % 0x100][a + 1 := v / 0x100 % 0x100];
    assert StoreBytes(m, a, v, 3) == m[a := v % 0x100][a + 1 := v / 0x100 % 0x100][a + 2 := v / 0x1_0000 % 0x100];
  }

  /** The k-th eight-byte cell below the top of memory, where call frames are made of, crosses a page
      boundary exactly when k is a multiple of 512. */
  lemma {:induction false} FrameCellStraddles(k: int)
    requires 1 <= k && 8 * k <= MAX_ADDR
    ensures InOnePage(MAX_ADDR - 8 * k, 8) <==> k % 512 != 0
    ensures InOnePage(MAX_ADDR - 8 * k, 4) <==> k % 512 != 0
    ensures InOnePage(MAX_ADDR - 8 * k + 4, 4)
  {
    var q, r := k / 512, k % 512;
    ModUnique(MAX_ADDR - 8 * k, PAGE_SIZE, 0xF_FFFF - q, PAGE_SIZE - 1 - 8 * r);
    if r != 0 {
      ModUnique(MAX_ADDR - 8 * k + 4, PAGE_SIZE, 0xF_FFFF - q, PAGE_SIZE + 3 - 8 * r);
    } else {
      ModUnique(MAX_ADDR - 8 * k + 4, PAGE_SIZE, 0xF_FFFF - q + 1, 3);
    }
  }

  lemma {:induction false} StoreEightBytes(m: Mem, a: int, v: int)
    ensures StoreBytes(m, a, v, 8) == FlatMemory.Write64(m, a, v)
  {
    hide Radix;
    Radixes();
    var lo, hi := v % W32, v / W32 % W32;
    LowBytes(v);
    HighBytes(v);
    StoreFourBytes(m, a, v);
    assert FlatMemory.Write32(m, a, lo) == FlatMemory.Write32(m, a, v);
    var m4 := StoreBytes(m, a, v, 4);
    var m5: Mem := m4[a + 4 := v / W32 % 256];
    var m6: Mem := m5[a + 5 := v / (W32 * 0x100) % 256];
    var m7: Mem := m6[a + 6 := v / (W32 * 0x1_0000) % 256];
    assert StoreBytes(m, a, v, 5) == m5;
    assert StoreBytes(m, a, v, 6) == m6;
    assert StoreBytes(m, a, v, 7) == m7;
  }

  lemma {:induction false} LowBytes(v: int)
    ensures v % W32 % 0x100 == v % 0x100
    ensures v % W32 / 0x100 % 0x100 == v / 0x100 % 0x100
    ensures v % W32 / 0x1_0000 % 0x100 == v / 0x1_0000 % 0x100
    ensures v % W32 / 0x100_0000 % 0x100 == v / 0x100_0000 % 0x100
  {
    var w := v % W32;
    LowByteFirst(v, 0x100_0000);
    LowByteFirst(v / 0x100, 0x1_0000);
    LowByteFirst(v / 0x100 / 0x100, 0x100);
    DivideTwice(v, 0x100);
    DivideTwice(v, 0x1_0000);
    DivideTwice(v / 0x100, 0x100);
    DivideTwice(w, 0x100);
    DivideTwice(w, 0x1_0000);
    DivideTwice(w / 0x100, 0x100);
  }

  lemma {:induction false} HighBytes(v: int)
    ensures v / W32 % W32 % 0x100 == v / W32 % 0x100
    ensures v / W32 % W32 / 0x100 % 0x100 == v / (W32 * 0x100) % 0x100
    ensures v / W32 % W32 / 0x1_0000 % 0x100 == v / (W32 * 0x1_0000) % 0x100
    ensures v / W32 % W32 / 0x100_0000 % 0x100 == v / (W32 * 0x100_0000) % 0x100
  {
    LowBytes(v / W32);
    DivideByProduct(v, 0x100);
    DivideByProduct(v, 0x1_0000);
    DivideByProduct(v, 0x100_0000);
  }

  lemma {:induction false} DivideByProduct(v: int, b: int)
    requires b > 0
    ensures v / (W32 * b) == v / W32 / b
  {
    var q, r, s := v / W32 / b, v / W32 % b, v % W32;
    assert v / W32 == q * b + r;
    assert q * (W32 * b) == W32 * (q * b);
    ModUnique(v, W32 * b, q, W32 * r + s);
  }
}
