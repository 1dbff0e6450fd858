/**
 * The segment descriptor table of kernel/src/gdt.cpp and kernel/src/gdt.c: five 8-byte
 * descriptors in the layout of section 3.4.5 of Volume 3A of the Intel 64 and IA-32
 * Architectures Software Developer's Manual, and the limit of the table pointer.
 */
module Gdt {

  /** One descriptor, field by field as `gdt_entry_t` lays it out. */
  datatype GdtEntry = GdtEntry(
    limitLow: bv16,
    baseLow: bv16,
    baseMiddle: bv8,
    access: bv8,
    granularity: bv8,
    baseHigh: bv8)

  const EntryCount: nat := 5
  const EntrySize: nat := 8
  const NullEntry := GdtEntry(0, 0, 0, 0, 0, 0)

  /** The 32-bit base the processor reads back out of a descriptor. */
  function Base(e: GdtEntry): bv32
  {
    (e.baseHigh as bv32 << 24) | (e.baseMiddle as bv32 << 16) | e.baseLow as bv32
  }

  /** The 20-bit limit the processor reads back out of a descriptor. */
  function Limit(e: GdtEntry): bv32
  {
    ((e.granularity & 0x0F) as bv32 << 16) | e.limitLow as bv32
  }

  /** The flags nibble (granularity, default size, long mode, available). */
  function Flags(e: GdtEntry): bv8
  {
    e.granularity & 0xF0
  }

  /** The packing done by `setGate`: base split 16/8/8, limit bits 0-15 and 16-19, the
      flags nibble taken from the high half of `gran`; limit bits 20-31 are dropped. */
  function Pack(base: bv32, limit: bv32, access: bv8, gran: bv8): (e: GdtEntry)
    ensures Base(e) == base
    ensures Limit(e) == limit & 0xFFFFF
    ensures Flags(e) == gran & 0xF0
    ensures e.access == access
  {
    GdtEntry(
      (limit & 0xFFFF) as bv16,
      (base & 0xFFFF) as bv16,
      ((base >> 16) & 0xFF) as bv8,
      access,
      ((limit >> 16) & 0x0F) as bv8 | (gran & 0xF0),
      ((base >> 24) & 0xFF) as bv8)
  }

  predicate Present(access: bv8) { access & 0x80 != 0 }
  predicate Executable(access: bv8) { access & 0x08 != 0 }
  /** Readable for a code segment, writable for a data segment. */
  predicate ReadWrite(access: bv8) { access & 0x02 != 0 }
  function PrivilegeLevel(access: bv8): bv8 { (access >> 5) & 0x03 }
  predicate LongMode(e: GdtEntry) { e.granularity & 0x20 != 0 }

  /** The five descriptors `init` installs, in order. */
  function StandardTable(): (t: seq<GdtEntry>)
    ensures |t| == EntryCount
    ensures t[0] == NullEntry
    ensures forall i :: 1 <= i < |t| ==>
      Base(t[i]) == 0 && t[i].limitLow == 0xFFFF && Limit(t[i]) == 0xFFFFF && Present(t[i].access) && ReadWrite(t[i].access)
    ensures Executable(t[1].access) && Executable(t[3].access) && !Executable(t[2].access) && !Executable(t[4].access)
    ensures LongMode(t[1]) && LongMode(t[3])
    ensures PrivilegeLevel(t[1].access) == 0 && PrivilegeLevel(t[2].access) == 0
    ensures PrivilegeLevel(t[3].access) == 3 && PrivilegeLevel(t[4].access) == 3
    ensures t[1].access == 0x9A && t[2].access == 0x92 && t[3].access == 0xFA && t[4].access == 0xF2
    ensures t[1].granularity == 0xAF && t[2].granularity == 0xCF && t[3].granularity == 0xAF && t[4].granularity == 0xCF
  {
    [ Pack(0, 0, 0, 0),
      Pack(0, 0xFFFFFFFF, 0x9A, 0xA0),
      Pack(0, 0xFFFFFFFF, 0x92, 0xC0),
      Pack(0, 0xFFFFFFFF, 0xFA, 0xA0),
      Pack(0, 0xFFFFFFFF, 0xF2, 0xC0) ]
  }

  /** The table and its pointer; `loads` records each limit handed to `gdt_flush`. */
  class Gdt {
    var entries: array<GdtEntry>
    var limit: bv16
    var loads: seq<bv16>

    ghost predicate Valid()
      reads this
    {
      entries.Length == EntryCount
    }

    constructor ()
      ensures Valid() && fresh(entries)
      ensures limit == (EntryCount * EntrySize - 1) as bv16 == 39
      ensures entries[..] == seq(EntryCount, _ => NullEntry)
      ensures loads == []
    {
      entries := new GdtEntry[EntryCount](_ => NullEntry);
      limit := (EntryCount * EntrySize - 1) as bv16;
      loads := [];
    }

    /** Writes all six fields of entry `num` and nothing else. */
    method SetGate(num: nat, base: bv32, lim: bv32, access: bv8, gran: bv8)
      requires Valid() && num < EntryCount
      modifies entries
      ensures entries[..] == old(entries[..])[num := Pack(base, lim, access, gran)]
    {
      entries[num] := Pack(base, lim, access, gran);
    }

    method Init()
      requires Valid()
      modifies this, entries
      ensures Valid() && entries == old(entries)
      ensures entries[..] == StandardTable()
      ensures limit == 39
      ensures loads == old(loads) + [39]
    {
      limit := (EntryCount * EntrySize - 1) as bv16;
      SetGate(0, 0, 0, 0, 0);
      SetGate(1, 0, 0xFFFFFFFF, 0x9A, 0xA0);
      SetGate(2, 0, 0xFFFFFFFF, 0x92, 0xC0);
      SetGate(3, 0, 0xFFFFFFFF, 0xFA, 0xA0);
      SetGate(4, 0, 0xFFFFFFFF, 0xF2, 0xC0);
      loads := loads + [limit];
    }
  }
}
