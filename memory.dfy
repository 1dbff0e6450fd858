/**
 * Memory management of kernel/src/memory.cpp and its C twin kernel/src/memory.c:
 * a first-fit bitmap of 4 KiB physical pages starting at 16 MiB, a bump heap with
 * 16-byte rounding, and the byte loops `memset`, `memcpy` and `memcmp`.
 *
 * The source's `uint64_t` and `size_t` arithmetic wraps modulo 2^64; the model writes
 * the wrap out wherever it can matter.
 */
module Memory {
  import opened Wrappers

  const U64: nat := 0x1_0000_0000_0000_0000
  const PageSize: nat := 4096
  /** Bytes of bitmap the manager clears and uses. */
  const BitmapSize: nat := 32768
  /** Physical address of page 0. */
  const MemoryBase: nat := 0x0100_0000
  /** 128 MiB of 4 KiB pages: 128 * 1024 * 1024 / 4096. */
  const ManagedPages: nat := 32768

  // ---------------------------------------------------------------------------------
  // The page bitmap: bit `i % 8` of byte `i / 8` is set while page `i` is in use.

  function BitMask(b: nat): bv8
    requires b < 8
  {
    (1 as bv8) << b
  }

  predicate IsUsed(bitmap: seq<bv8>, i: nat)
    requires i / 8 < |bitmap|
  {
    bitmap[i / 8] & BitMask(i % 8) != 0
  }

  /** The bitmap after `byte |= 1 << bit`: page `i` used, every other page as before. */
  function SetUsed(bitmap: seq<bv8>, i: nat): (r: seq<bv8>)
    requires i / 8 < |bitmap|
    ensures |r| == |bitmap| && IsUsed(r, i)
    ensures forall j: nat :: j / 8 < |bitmap| && j != i ==> (IsUsed(r, j) <==> IsUsed(bitmap, j))
  {
    var r := bitmap[i / 8 := bitmap[i / 8] | BitMask(i % 8)];
    forall j: nat | j / 8 < |bitmap| && j != i
      ensures IsUsed(r, j) <==> IsUsed(bitmap, j)
    {
      OtherPageKept(bitmap, r, i, j);
    }
    r
  }

  /** The bitmap after `byte &= ~(1 << bit)`: page `i` free, every other page as before. */
  function ClearUsed(bitmap: seq<bv8>, i: nat): (r: seq<bv8>)
    requires i / 8 < |bitmap|
    ensures |r| == |bitmap| && !IsUsed(r, i)
    ensures forall j: nat :: j / 8 < |bitmap| && j != i ==> (IsUsed(r, j) <==> IsUsed(bitmap, j))
  {
    var r := bitmap[i / 8 := bitmap[i / 8] & !BitMask(i % 8)];
    forall j: nat | j / 8 < |bitmap| && j != i
      ensures IsUsed(r, j) <==> IsUsed(bitmap, j)
    {
      OtherPageKept(bitmap, r, i, j);
    }
    r
  }

  /** Setting or clearing page `i`'s bit leaves page `j`'s bit alone. */
  lemma OtherPageKept(bitmap: seq<bv8>, r: seq<bv8>, i: nat, j: nat)
    requires i / 8 < |bitmap| && j / 8 < |bitmap| && j != i
    requires r == bitmap[i / 8 := bitmap[i / 8] | BitMask(i % 8)] ||
             r == bitmap[i / 8 := bitmap[i / 8] & !BitMask(i % 8)]
    ensures IsUsed(r, j) <==> IsUsed(bitmap, j)
  {
    var bi, bj := i / 8, j / 8;
    if bj == bi {
      assert i % 8 != j % 8;
      OtherBitKept(bitmap[bi], i % 8, j % 8);
    } else {
      assert r[bj] == bitmap[bj];
    }
  }

  lemma OtherBitKept(x: bv8, i: nat, j: nat)
    requires i < 8 && j < 8 && i != j
    ensures ((x | BitMask(i)) & BitMask(j) != 0) <==> (x & BitMask(j) != 0)
    ensures ((x & !BitMask(i)) & BitMask(j) != 0) <==> (x & BitMask(j) != 0)
  {
  }

  /** How many of the first `n` pages are in use. */
  function UsedCount(bitmap: seq<bv8>, n: nat): (c: nat)
    requires n <= 8 * |bitmap|
    ensures c <= n
  {
    if n == 0 then 0 else UsedCount(bitmap, n - 1) + (if IsUsed(bitmap, n - 1) then 1 else 0)
  }

  /** The lowest free page in `from..total`, or `None` when all of them are used. */
  function FirstFree(bitmap: seq<bv8>, total: nat, from: nat): (r: Option<nat>)
    requires total <= 8 * |bitmap|
    ensures r.Some? ==> (from <= r.value < total && !IsUsed(bitmap, r.value) &&
      forall j :: from <= j < r.value ==> IsUsed(bitmap, j))
    ensures r.None? ==> forall j :: from <= j < total ==> IsUsed(bitmap, j)
    decreases total - from
  {
    if from >= total then None
    else if !IsUsed(bitmap, from) then Some(from)
    else FirstFree(bitmap, total, from + 1)
  }

  lemma {:induction false} ZeroBitmapUnused(n: nat)
    requires n <= 8 * BitmapSize
    ensures UsedCount(seq(BitmapSize, _ => 0), n) == 0
  {
    if n > 0 {
      ZeroBitmapUnused(n - 1);
    }
  }

  /** Marking a free page below `n` adds one to the count of the first `n` pages. */
  lemma {:induction false} SetUsedCounts(bitmap: seq<bv8>, i: nat, n: nat)
    requires i < n <= 8 * |bitmap| && !IsUsed(bitmap, i)
    ensures UsedCount(SetUsed(bitmap, i), n) == UsedCount(bitmap, n) + 1
  {
    var r := SetUsed(bitmap, i);
    if n - 1 != i {
      SetUsedCounts(bitmap, i, n - 1);
      assert IsUsed(r, n - 1) == IsUsed(bitmap, n - 1);
    } else {
      UnchangedBelow(bitmap, r, i);
    }
  }

  /** Clearing a used page below `n` takes one off the count of the first `n` pages. */
  lemma {:induction false} ClearUsedCounts(bitmap: seq<bv8>, i: nat, n: nat)
    requires i < n <= 8 * |bitmap| && IsUsed(bitmap, i)
    ensures UsedCount(ClearUsed(bitmap, i), n) == UsedCount(bitmap, n) - 1
  {
    var r := ClearUsed(bitmap, i);
    if n - 1 != i {
      ClearUsedCounts(bitmap, i, n - 1);
      assert IsUsed(r, n - 1) == IsUsed(bitmap, n - 1);
    } else {
      UnchangedBelow(bitmap, r, i);
    }
  }

  /** Clearing a page that is already free leaves the count alone. */
  lemma ClearFreeCounts(bitmap: seq<bv8>, i: nat, n: nat)
    requires i / 8 < |bitmap| && n <= 8 * |bitmap| && !IsUsed(bitmap, i)
    ensures UsedCount(ClearUsed(bitmap, i), n) == UsedCount(bitmap, n)
  {
    SameUsage(bitmap, ClearUsed(bitmap, i), n);
  }

  lemma {:induction false} UnchangedBelow(a: seq<bv8>, b: seq<bv8>, n: nat)
    requires n <= 8 * |a| && |a| == |b|
    requires forall j: nat :: j < n ==> (IsUsed(a, j) <==> IsUsed(b, j))
    ensures UsedCount(a, n) == UsedCount(b, n)
  {
    if n > 0 {
      UnchangedBelow(a, b, n - 1);
    }
  }

  lemma SameUsage(a: seq<bv8>, b: seq<bv8>, n: nat)
    requires n <= 8 * |a| && |a| == |b|
    requires forall j: nat :: j / 8 < |a| ==> (IsUsed(a, j) <==> IsUsed(b, j))
    ensures UsedCount(a, n) == UsedCount(b, n)
  {
    UnchangedBelow(a, b, n);
  }

  /** Freeing a page twice: the bitmap does not change but the counter still drops,
      so the counter no longer equals the number of used pages. */
  lemma DoubleFreeDesynchronises(bitmap: seq<bv8>, n: nat, used: nat, i: nat)
    requires i < n <= 8 * |bitmap| && !IsUsed(bitmap, i)
    requires used == UsedCount(bitmap, n)
    ensures (used - 1) % U64 != UsedCount(ClearUsed(bitmap, i), n)
  {
    ClearFreeCounts(bitmap, i, n);
  }

  /** The page index `freePage` computes, with the subtraction wrapping below 16 MiB. */
  function PageIndex(addr: nat): nat
  {
    ((addr - MemoryBase) % U64) / PageSize
  }

  /** Marking a free page below `n` keeps a correct counter correct. */
  lemma AllocKeepsCount(bitmap: seq<bv8>, used: nat, i: nat, n: nat)
    requires i < n <= 8 * |bitmap| && n < U64 && !IsUsed(bitmap, i) && used == UsedCount(bitmap, n)
    ensures (used + 1) % U64 == UsedCount(SetUsed(bitmap, i), n)
  {
    SetUsedCounts(bitmap, i, n);
  }

  /** Freeing a used page below `n` keeps a correct counter correct. */
  lemma FreeKeepsCount(bitmap: seq<bv8>, used: nat, i: nat, n: nat)
    requires i < n <= 8 * |bitmap| && n <= U64 && IsUsed(bitmap, i) && used == UsedCount(bitmap, n)
    ensures (used - 1) % U64 == UsedCount(ClearUsed(bitmap, i), n)
  {
    ClearUsedCounts(bitmap, i, n);
  }

  /** Addresses below 16 MiB wrap to indices far above any page count. */
  lemma LowAddressOutOfRange(addr: nat)
    requires addr < MemoryBase
    ensures PageIndex(addr) >= 8 * BitmapSize
  {
  }

  /** The page index of an address `allocPage` hands out is the allocated page. */
  lemma PageIndexRoundTrip(i: nat)
    requires i < 8 * BitmapSize
    ensures PageIndex(MemoryBase + i * PageSize) == i
  {
  }

  class PhysicalMemoryManager {
    var pageBitmap: array<bv8>
    var totalPages: nat
    var usedPages: nat

    ghost predicate Valid()
      reads this
    {
      pageBitmap.Length == BitmapSize && totalPages <= 8 * BitmapSize && usedPages < U64
    }

    /** The page counter agrees with the bitmap. */
    ghost predicate Consistent()
      reads this, pageBitmap
      requires Valid()
    {
      usedPages == UsedCount(pageBitmap[..], totalPages)
    }

    constructor ()
      ensures Valid() && fresh(pageBitmap)
      ensures pageBitmap[..] == seq(BitmapSize, _ => 0)
      ensures totalPages == 0 && usedPages == 0
    {
      pageBitmap := new bv8[BitmapSize](_ => 0);
      totalPages := 0;
      usedPages := 0;
    }

    /** Manages 32768 pages, all free. The boot information is not consulted. */
    method Init()
      requires Valid()
      modifies this`totalPages, this`usedPages, pageBitmap
      ensures Valid() && Consistent() && pageBitmap == old(pageBitmap)
      ensures totalPages == ManagedPages == 32768
      ensures pageBitmap[..] == seq(BitmapSize, _ => 0)
      ensures usedPages == 0
    {
      totalPages := ManagedPages;
      var i := 0;
      while i < BitmapSize
        invariant 0 <= i <= BitmapSize
        invariant forall k :: 0 <= k < i ==> pageBitmap[k] == 0
        invariant totalPages == ManagedPages
      {
        pageBitmap[i] := 0;
        i := i + 1;
      }
      usedPages := 0;
      assert pageBitmap[..] == seq(BitmapSize, _ => 0);
      ZeroBitmapUnused(totalPages);
    }

    /** First fit: marks the lowest free page and returns its address, or `None` (a
        null pointer) with nothing changed when every page is used. Keeps the counter
        consistent. */
    method AllocPage() returns (page: Option<nat>)
      requires Valid()
      modifies pageBitmap, this`usedPages
      ensures Valid()
      ensures match FirstFree(old(pageBitmap[..]), totalPages, 0)
        case None =>
          page.None? && pageBitmap[..] == old(pageBitmap[..]) && usedPages == old(usedPages)
        case Some(i) =>
          page == Some(MemoryBase + i * PageSize) &&
          pageBitmap[..] == SetUsed(old(pageBitmap[..]), i) && usedPages == (old(usedPages) + 1) % U64
      ensures old(Consistent()) ==> Consistent()
    {
      ghost var before := pageBitmap[..];
      var i := 0;
      while i < totalPages
        invariant 0 <= i <= totalPages
        invariant FirstFree(before, totalPages, 0) == FirstFree(before, totalPages, i)
        invariant pageBitmap[..] == before
      {
        if pageBitmap[i / 8] & BitMask(i % 8) == 0 {
          TakePage(i);
          return Some(MemoryBase + i * PageSize);
        }
        i := i + 1;
      }
      return None;
    }

    /** Ignores addresses whose page index is out of range; otherwise clears the page's
        bit and decrements the counter modulo 2^64, whether or not the page was used. */
    method FreePage(addr: nat)
      requires Valid() && addr < U64
      modifies pageBitmap, this`usedPages
      ensures Valid()
      ensures PageIndex(addr) >= totalPages ==>
        pageBitmap[..] == old(pageBitmap[..]) && usedPages == old(usedPages)
      ensures PageIndex(addr) < totalPages ==>
        pageBitmap[..] == ClearUsed(old(pageBitmap[..]), PageIndex(addr)) &&
        usedPages == (old(usedPages) - 1) % U64
      ensures old(Consistent()) && PageIndex(addr) < totalPages && IsUsed(old(pageBitmap[..]), PageIndex(addr)) ==>
        Consistent()
    {
      var pageIdx := PageIndex(addr);
      if pageIdx >= totalPages {
        return;
      }
      ghost var before := pageBitmap[..];
      ghost var wasConsistent := Consistent();
      ClearBit(pageIdx);
      usedPages := (usedPages - 1) % U64;
      if wasConsistent && IsUsed(before, pageIdx) {
        FreeKeepsCount(before, old(usedPages), pageIdx, totalPages);
      }
    }

    /** Marks free page `i` used and counts it. */
    method TakePage(i: nat)
      requires Valid() && i < totalPages && !IsUsed(pageBitmap[..], i)
      modifies pageBitmap, this`usedPages
      ensures Valid()
      ensures pageBitmap[..] == SetUsed(old(pageBitmap[..]), i) && usedPages == (old(usedPages) + 1) % U64
      ensures old(Consistent()) ==> Consistent()
    {
      ghost var before := pageBitmap[..];
      ghost var wasConsistent := Consistent();
      pageBitmap[i / 8] := pageBitmap[i / 8] | BitMask(i % 8);
      usedPages := (usedPages + 1) % U64;
      if wasConsistent {
        AllocKeepsCount(before, old(usedPages), i, totalPages);
      }
    }

    /** `pageBitmap[i / 8] &= ~(1 << (i % 8))`. */
    method ClearBit(i: nat)
      requires Valid() && i < totalPages
      modifies pageBitmap
      ensures pageBitmap[..] == ClearUsed(old(pageBitmap[..]), i)
    {
      pageBitmap[i / 8] := pageBitmap[i / 8] & !BitMask(i % 8);
    }

    method GetTotalMemory() returns (bytes: nat)
      requires Valid()
      ensures bytes == (totalPages * PageSize) % U64 == totalPages * PageSize
    {
      bytes := (totalPages * PageSize) % U64;
    }

    /** `(totalPages - usedPages) * 4096` in 64-bit arithmetic; while the counter is
        consistent, exactly the bytes of the free pages, never more than the total. */
    method GetFreeMemory() returns (bytes: nat)
      requires Valid()
      ensures bytes == (((totalPages - usedPages) % U64) * PageSize) % U64
      ensures Consistent() ==>
        bytes == (totalPages - UsedCount(pageBitmap[..], totalPages)) * PageSize <= totalPages * PageSize
    {
      bytes := (((totalPages - usedPages) % U64) * PageSize) % U64;
    }
  }

  // ---------------------------------------------------------------------------------
  // The bump heap. Addresses are naturals; 0 is the null pointer.

  /** `(size + 15) & ~15` in 64-bit arithmetic: the sum wraps modulo 2^64, and
      masking off the low four bits subtracts the sum's remainder modulo 16. */
  function RoundUp16(size: nat): nat
    requires size < U64
  {
    var sum := (size + 15) % U64;
    sum - sum % 16
  }

  /** Below the top 15 values of `size_t`, rounding gives the least multiple of 16
      not below `size`. */
  lemma RoundUp16Bounds(size: nat)
    requires size <= U64 - 16
    ensures RoundUp16(size) % 16 == 0
    ensures size <= RoundUp16(size) < size + 16
  {
  }

  /** For the top 15 values the addition wraps and the rounded size is 0. */
  lemma RoundUp16Wraps()
    ensures RoundUp16(U64 - 1) == 0
  {
  }

  datatype Block = Block(address: nat, length: nat)

  class HeapAllocator {
    var heapStart: nat
    var heapCurrent: nat
    var heapEnd: nat
    /** The ranges `calloc` has zeroed, in order. */
    var zeroed: seq<Block>

    ghost predicate Valid()
      reads this
    {
      heapStart <= heapCurrent <= heapEnd
    }

    constructor ()
      ensures Valid()
      ensures heapStart == 0 && heapCurrent == 0 && heapEnd == 0 && zeroed == []
    {
      heapStart, heapCurrent, heapEnd := 0, 0, 0;
      zeroed := [];
    }

    method Init(start: nat, size: nat)
      modifies this`heapStart, this`heapCurrent, this`heapEnd
      ensures Valid()
      ensures heapStart == start && heapCurrent == start && heapEnd == start + size
    {
      heapStart := start;
      heapCurrent := heapStart;
      heapEnd := heapStart + size;
    }

    /** `alloc` as written: `None` (null) when the heap is not set up or the rounded size
        does not fit; otherwise the old bump pointer, advanced by the rounded size. */
    method Alloc(size: nat) returns (p: Option<nat>)
      requires Valid() && size < U64
      modifies this`heapCurrent
      ensures Valid()
      ensures heapStart == 0 || old(heapCurrent) + RoundUp16(size) > heapEnd ==>
        p.None? && heapCurrent == old(heapCurrent)
      ensures heapStart != 0 && old(heapCurrent) + RoundUp16(size) <= heapEnd ==>
        p == Some(old(heapCurrent)) && heapCurrent == old(heapCurrent) + RoundUp16(size)
    {
      if heapStart == 0 {
        return None;
      }
      var sum := (size + 15) % U64;
      var rounded := sum - sum % 16;
      if heapCurrent + rounded > heapEnd {
        return None;
      }
      p := Some(heapCurrent);
      heapCurrent := heapCurrent + rounded;
    }

    /** `calloc` as written: `num * size` wraps modulo 2^64, and the zeroed range is
        that wrapped count. */
    method Calloc(num: nat, size: nat) returns (p: Option<nat>)
      requires Valid() && num < U64 && size < U64
      modifies this`heapCurrent, this`zeroed
      ensures Valid()
      ensures var total := (num * size) % U64;
        && (heapStart == 0 || old(heapCurrent) + RoundUp16(total) > heapEnd ==>
              p.None? && heapCurrent == old(heapCurrent) && zeroed == old(zeroed))
        && (heapStart != 0 && old(heapCurrent) + RoundUp16(total) <= heapEnd ==>
              p == Some(old(heapCurrent)) && heapCurrent == old(heapCurrent) + RoundUp16(total) &&
              zeroed == old(zeroed) + [Block(old(heapCurrent), total)])
    {
      var total := (num * size) % U64;
      p := Alloc(total);
      if p.Some? {
        zeroed := zeroed + [Block(p.value, total)];
      }
    }

    /** `alloc` with the rounding overflow rejected: a successful block lies inside the
        heap and holds at least `size` bytes. */
    method AllocChecked(size: nat) returns (p: Option<nat>)
      requires Valid() && size < U64
      modifies this`heapCurrent
      ensures Valid()
      ensures p.None? ==> heapCurrent == old(heapCurrent)
      ensures p.Some? ==>
        p.value == old(heapCurrent) && heapStart != 0 &&
        old(heapCurrent) + size <= heapCurrent <= heapEnd && heapCurrent % 16 == old(heapCurrent) % 16
      ensures p.None? <==> heapStart == 0 || size > U64 - 16 || old(heapCurrent) + RoundUp16(size) > heapEnd
    {
      if size > U64 - 16 {
        return None;
      }
      RoundUp16Bounds(size);
      p := Alloc(size);
    }

    /** `calloc` with both overflows rejected: a successful block holds all `num * size`
        bytes and exactly those bytes are zeroed. */
    method CallocChecked(num: nat, size: nat) returns (p: Option<nat>)
      requires Valid() && num < U64 && size < U64
      modifies this`heapCurrent, this`zeroed
      ensures Valid()
      ensures p.None? ==> heapCurrent == old(heapCurrent) && zeroed == old(zeroed)
      ensures p.Some? ==>
        num * size < U64 &&
        p.value == old(heapCurrent) && old(heapCurrent) + num * size <= heapCurrent <= heapEnd &&
        zeroed == old(zeroed) + [Block(p.value, num * size)]
      ensures p.None? <==>
        heapStart == 0 || num * size > U64 - 16 || old(heapCurrent) + RoundUp16(num * size) > heapEnd
    {
      if num * size >= U64 {
        return None;
      }
      var total := num * size;
      p := AllocChecked(total);
      if p.Some? {
        zeroed := zeroed + [Block(p.value, total)];
      }
    }
  }

  /** `calloc(1, 2^64 - 1)` on a heap with room left: the block it hands out is empty,
      yet `2^64 - 1` bytes from its start are zeroed, all but the heap's remainder
      outside the heap. */
  lemma CallocRoundingOverflow(current: nat, end: nat)
    requires 0 < current < end < U64
    ensures var total := (1 * (U64 - 1)) % U64;
      RoundUp16(total) == 0 && current + RoundUp16(total) <= end && current + total > end
  {
    RoundUp16Wraps();
  }

  /** `calloc(2^32, 2^32)`: the product wraps to 0, so the call succeeds with an empty
      block instead of failing for want of 2^64 bytes. */
  lemma CallocProductOverflow()
    ensures (0x1_0000_0000 * 0x1_0000_0000) % U64 == 0 && RoundUp16(0) == 0
  {
  }

  /** `calloc(1, 2^64 - 1)` on a set-up 64-bit heap, as written: it succeeds without
      moving the bump pointer and logs 2^64 - 1 zeroed bytes from the block's start,
      which run past the heap's end. */
  method CallocRoundingScenario(h: HeapAllocator) returns (p: Option<nat>)
    requires h.Valid() && h.heapStart != 0 && h.heapEnd < U64
    modifies h`heapCurrent, h`zeroed
    ensures p == Some(old(h.heapCurrent)) && h.heapCurrent == old(h.heapCurrent)
    ensures h.zeroed == old(h.zeroed) + [Block(old(h.heapCurrent), U64 - 1)]
    ensures old(h.heapCurrent) + (U64 - 1) > h.heapEnd
  {
    RoundUp16Wraps();
    p := h.Calloc(1, U64 - 1);
  }

  /** `calloc(2^32, 2^32)` on a set-up heap, as written: the product wraps to 0, so the
      call succeeds with an empty block instead of failing. */
  method CallocProductScenario(h: HeapAllocator) returns (p: Option<nat>)
    requires h.Valid() && h.heapStart != 0
    modifies h`heapCurrent, h`zeroed
    ensures p == Some(old(h.heapCurrent)) && h.heapCurrent == old(h.heapCurrent)
    ensures h.zeroed == old(h.zeroed) + [Block(old(h.heapCurrent), 0)]
  {
    p := h.Calloc(0x1_0000_0000, 0x1_0000_0000);
  }

  // ---------------------------------------------------------------------------------
  // Byte loops

  /** The conversion of an `int` to `uint8_t`: its value modulo 256. */
  function ToByte(val: int): bv8
  {
    (val % 256) as bv8
  }

  /** `count` copies of `val` converted to `uint8_t`. */
  function Filled(val: int, count: nat): (r: seq<bv8>)
    ensures |r| == count && forall i :: 0 <= i < count ==> r[i] == ToByte(val)
  {
    seq(count, _ => ToByte(val))
  }

  /** `memset`: the first `count` bytes become `(uint8_t)val`, the rest are untouched. */
  method MemSet(dest: array<bv8>, val: int, count: nat) returns (r: array<bv8>)
    requires count <= dest.Length
    modifies dest
    ensures r == dest
    ensures dest[..count] == Filled(val, count) && dest[count..] == old(dest[count..])
  {
    var v := ToByte(val);
    var i := 0;
    while i < count
      invariant 0 <= i <= count
      invariant dest[..i] == Filled(val, i) && dest[count..] == old(dest[count..])
    {
      dest[i] := v;
      i := i + 1;
    }
    return dest;
  }

  /** `memcpy` between distinct buffers: the first `count` bytes of `dest` become those
      of `src`, the rest are untouched. */
  method MemCpy(dest: array<bv8>, src: array<bv8>, count: nat) returns (r: array<bv8>)
    requires count <= dest.Length && count <= src.Length && dest != src
    modifies dest
    ensures r == dest
    ensures dest[..count] == src[..count] && dest[count..] == old(dest[count..])
  {
    var i := 0;
    while i < count
      invariant 0 <= i <= count
      invariant dest[..i] == src[..i] && dest[count..] == old(dest[count..])
    {
      dest[i] := src[i];
      i := i + 1;
    }
    return dest;
  }

  /** The `memcmp` answer on two byte strings of equal length: the difference at the
      first position where they differ, or 0. */
  function Compare(a: seq<bv8>, b: seq<bv8>): int
    requires |a| == |b|
    decreases |a|
  {
    if a == [] then 0
    else if a[0] != b[0] then a[0] as int - b[0] as int
    else Compare(a[1..], b[1..])
  }

  /** `memcmp` returns 0 exactly on equal buffers, swapping them negates the answer,
      and the answer fits in -255..255. */
  lemma {:induction false} CompareProperties(a: seq<bv8>, b: seq<bv8>)
    requires |a| == |b|
    ensures Compare(a, b) == 0 <==> a == b
    ensures Compare(b, a) == -Compare(a, b)
    ensures -255 <= Compare(a, b) <= 255
    decreases |a|
  {
    if a != [] && a[0] == b[0] {
      CompareProperties(a[1..], b[1..]);
      if a[1..] == b[1..] {
        assert a == [a[0]] + a[1..] && b == [b[0]] + b[1..];
      }
    }
  }

  /** A negative answer means the first difference has the smaller byte in `a`. */
  lemma {:induction false} CompareFindsFirstDifference(a: seq<bv8>, b: seq<bv8>)
    requires |a| == |b| && a != b
    ensures exists k :: (0 <= k < |a| && a[..k] == b[..k] && a[k] != b[k] &&
      Compare(a, b) == a[k] as int - b[k] as int)
    decreases |a|
  {
    if a[0] != b[0] {
      assert a[..0] == b[..0];
    } else {
      assert a == [a[0]] + a[1..] && b == [b[0]] + b[1..];
      CompareFindsFirstDifference(a[1..], b[1..]);
      var k :| 0 <= k < |a| - 1 && a[1..][..k] == b[1..][..k] && a[1..][k] != b[1..][k] &&
        Compare(a[1..], b[1..]) == a[1..][k] as int - b[1..][k] as int;
      assert a[..k + 1] == [a[0]] + a[1..][..k];
      assert b[..k + 1] == [b[0]] + b[1..][..k];
    }
  }

  method MemCmp(a: array<bv8>, b: array<bv8>, count: nat) returns (r: int)
    requires count <= a.Length && count <= b.Length
    ensures r == Compare(a[..count], b[..count])
  {
    var i := 0;
    while i < count
      invariant 0 <= i <= count
      invariant a[..i] == b[..i]
      invariant Compare(a[..count], b[..count]) == Compare(a[i..count], b[i..count])
    {
      if a[i] != b[i] {
        return a[i] as int - b[i] as int;
      }
      assert a[i..count][1..] == a[i + 1..count] && b[i..count][1..] == b[i + 1..count];
      assert a[..i + 1] == a[..i] + [a[i]] && b[..i + 1] == b[..i] + [b[i]];
      i := i + 1;
    }
    assert a[i..count] == [];
    return 0;
  }
}
