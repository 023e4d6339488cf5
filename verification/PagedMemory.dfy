/** The VM's memory as it is stored: pages of 4096 bytes, created when first written. */
module PagedMemory {
  import opened Words
  import opened Isa
  import opened FlatMemory
  import opened Encoding
  import opened Pages

  datatype Scope = CodeScope | DataScope | HeapScope | CallStackScope | PtrScope | AnyScope

  class MemoryManager {
    var pageTable: map<int, array<Byte>>
    var startOfDataRegion: int
    var HB: int
    var HP: int
    var SP: int
    ghost var flat: Mem

    constructor ()
      ensures Valid() && flat == map[] && pageTable == map[]
    {
      pageTable := map[];
      startOfDataRegion := 0;
      HB := 0;
      HP := 0;
      SP := MAX_ADDR;
      flat := map[];
    }

    ghost predicate Pages()
      reads this, pageTable.Values
    {
      && (forall p | p in pageTable :: 0 <= p < 0x10_0000 && pageTable[p].Length == PAGE_SIZE)
      && (forall p, q | p in pageTable && q in pageTable && p != q :: pageTable[p] != pageTable[q])
    }

    /** A byte of a page that was never written reads as zero. */
    ghost function ByteAt(a: int): Byte
      requires Pages()
      reads this, pageTable.Values
    {
      if a / PAGE_SIZE in pageTable then pageTable[a / PAGE_SIZE][a % PAGE_SIZE] else 0
    }

    /** The pages hold what the flat memory holds. */
    ghost predicate Valid()
      reads this, pageTable.Values
    {
      Pages() && forall a | IsWord(a) :: Get(flat, a) == ByteAt(a)
    }

    predicate InRegion(scope: Scope, a: int)
      reads this
    {
      match scope
      case CodeScope => a < startOfDataRegion
      case DataScope => startOfDataRegion <= a < HB
      case HeapScope => HB <= a <= HP
      case CallStackScope => SP <= a
      case PtrScope => startOfDataRegion <= a < HB || HB <= a <= HP || SP <= a
      case AnyScope => true
    }

    method GetOrCreatePage(a: int) returns (page: array<Byte>)
      requires Valid() && IsWord(a)
      modifies this`pageTable
      ensures Valid() && a / PAGE_SIZE in pageTable && page == pageTable[a / PAGE_SIZE]
      ensures pageTable.Values - old(pageTable.Values) <= {page}
      ensures a / PAGE_SIZE in old(pageTable) ==> pageTable == old(pageTable)
      ensures a / PAGE_SIZE !in old(pageTable) ==> fresh(page)
    {
      var n := a / PAGE_SIZE;
      if n !in pageTable {
        page := new Byte[PAGE_SIZE](_ => 0);
        pageTable := pageTable[n := page];
      }
      page := pageTable[n];
    }

    /** The bytes of a number, stored in one page. What happens past the end of the page is undefined. */
    method WriteBytes(scope: Scope, a: int, v: int, n: nat) returns (r: Outcome<()>)
      requires Valid() && IsWord(a)
      modifies this`pageTable, this`flat, pageTable.Values
      ensures Valid()
      ensures !InRegion(scope, a) ==> r == Err(Internal)
      ensures InRegion(scope, a) && !InOnePage(a, n) ==> r == Err(Undefined)
      ensures InRegion(scope, a) && InOnePage(a, n) ==> r.Ok? && flat == StoreBytes(old(flat), a, v, n)
      ensures r.Err? ==> flat == old(flat)
    {
      if !InRegion(scope, a) {
        return Err(Internal);
      }
      if !InOnePage(a, n) {
        return Err(Undefined);
      }
      var page := GetOrCreatePage(a);
      for i := 0 to n
        invariant Valid() && a / PAGE_SIZE in pageTable && page == pageTable[a / PAGE_SIZE]
        invariant flat == StoreBytes(old(flat), a, v, i)
        invariant pageTable.Values <= old(pageTable.Values) + {page} && (page in old(pageTable.Values) || fresh(page))
      {
        hide Radix;
        SameByte(a, i, n);
        var b := v / Radix(i) % 256;
        page[PageOffset(a) + i] := b;
        flat := flat[a + i := b];
      }
      return Ok(());
    }

    method ReadBytes(scope: Scope, a: int, n: nat) returns (r: Outcome<int>)
      requires Valid() && IsWord(a)
      ensures r == if InRegion(scope, a) then Ok(PagedRead(flat, a, n)) else Err(Internal)
    {
      if !InRegion(scope, a) {
        return Err(Internal);
      }
      if a / PAGE_SIZE !in pageTable {
        NoPageReadsZero(flat, a, n);
        return Ok(0);
      }
      var page, result := pageTable[a / PAGE_SIZE], 0;
      for i := 0 to n
        invariant result == PagedRead(flat, a, i)
      {
        hide Radix;
        WrappedWord(a, i);
        result := result + Radix(i) * page[(a + i) % PAGE_SIZE];
      }
      return Ok(result);
    }

    method Write8(scope: Scope, a: int, v: Byte) returns (r: Outcome<()>)
      requires Valid() && IsWord(a)
      modifies this`pageTable, this`flat, pageTable.Values
      ensures Valid()
      ensures if InRegion(scope, a) then r.Ok? && flat == FlatMemory.Write8(old(flat), a, v)
              else r == Err(Internal) && flat == old(flat)
    {
      r := WriteBytes(scope, a, v, 1);
      assert StoreBytes(old(flat), a, v, 1) == old(flat)[a := v];
    }

    method Write32(scope: Scope, a: int, v: int) returns (r: Outcome<()>)
      requires Valid() && IsWord(a)
      modifies this`pageTable, this`flat, pageTable.Values
      ensures Valid()
      ensures !InRegion(scope, a) ==> r == Err(Internal)
      ensures InRegion(scope, a) && !InOnePage(a, 4) ==> r == Err(Undefined)
      ensures InRegion(scope, a) && InOnePage(a, 4) ==> r.Ok? && flat == FlatMemory.Write32(old(flat), a, v)
    {
      r := WriteBytes(scope, a, v, 4);
      StoreFourBytes(old(flat), a, v);
    }

    method Write64(scope: Scope, a: int, v: int) returns (r: Outcome<()>)
      requires Valid() && IsWord(a)
      modifies this`pageTable, this`flat, pageTable.Values
      ensures Valid()
      ensures !InRegion(scope, a) ==> r == Err(Internal)
      ensures InRegion(scope, a) && !InOnePage(a, 8) ==> r == Err(Undefined)
      ensures InRegion(scope, a) && InOnePage(a, 8) ==> r.Ok? && flat == FlatMemory.Write64(old(flat), a, v)
    {
      r := WriteBytes(scope, a, v, 8);
      StoreEightBytes(old(flat), a, v);
    }

    method Read8(scope: Scope, a: int) returns (r: Outcome<int>)
      requires Valid() && IsWord(a)
      ensures r == if InRegion(scope, a) then Ok(Get(flat, a)) else Err(Internal)
    {
      r := ReadBytes(scope, a, 1);
      WrappedInPage(a, 0, 1);
      assert PagedRead(flat, a, 1) == PagedRead(flat, a, 0) + Radix(0) * Get(flat, Wrapped(a, 0));
    }

    method Read32(scope: Scope, a: int) returns (r: Outcome<int>)
      requires Valid() && IsWord(a)
      ensures !InRegion(scope, a) ==> r == Err(Internal)
      ensures InRegion(scope, a) && InOnePage(a, 4) ==> r == Ok(FlatMemory.Read32(flat, a))
      ensures InRegion(scope, a) ==> r == Ok(PagedRead(flat, a, 4))
    {
      r := ReadBytes(scope, a, 4);
      if InOnePage(a, 4) {
        PagedReadIsFlat(flat, a, 4);
        FlatRead32(flat, a);
      }
    }

    method Read64(scope: Scope, a: int) returns (r: Outcome<int>)
      requires Valid() && IsWord(a)
      ensures !InRegion(scope, a) ==> r == Err(Internal)
      ensures InRegion(scope, a) && InOnePage(a, 8) ==> r == Ok(FlatMemory.Read64(flat, a))
      ensures InRegion(scope, a) ==> r == Ok(PagedRead(flat, a, 8))
    {
      r := ReadBytes(scope, a, 8);
      if InOnePage(a, 8) {
        PagedReadIsFlat(flat, a, 8);
        FlatRead64(flat, a);
      }
    }

    lemma {:induction false} NoPageReadsZero(m: Mem, a: int, n: nat)
      requires Valid() && IsWord(a) && m == flat && a / PAGE_SIZE !in pageTable
      ensures PagedRead(m, a, n) == 0
    {
      hide Radix;
      if n > 0 {
        NoPageReadsZero(m, a, n - 1);
        WrappedWord(a, n - 1);
      }
    }
  }

  /** Byte i of a write lies in the page looked up, at the next offset, and in no other place. */
  lemma {:induction false} SameByte(a: int, i: nat, n: nat)
    requires IsWord(a) && InOnePage(a, n) && i < n
    ensures IsWord(a + i) && 0 <= PageOffset(a) + i < PAGE_SIZE
    ensures forall b: int :: b / PAGE_SIZE == a / PAGE_SIZE && b % PAGE_SIZE == PageOffset(a) + i <==> b == a + i
  {
    var q, r := a / PAGE_SIZE, a % PAGE_SIZE;
    ModUnique(a + i, PAGE_SIZE, q, r + i);
  }

  lemma {:induction false} WrappedWord(a: int, i: nat)
    requires IsWord(a)
    ensures IsWord(Wrapped(a, i)) && Wrapped(a, i) / PAGE_SIZE == a / PAGE_SIZE
    ensures Wrapped(a, i) % PAGE_SIZE == (a + i) % PAGE_SIZE
  {
    ModUnique(Wrapped(a, i), PAGE_SIZE, a / PAGE_SIZE, (a + i) % PAGE_SIZE);
  }
}
