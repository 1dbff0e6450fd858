/**
 * The local APIC driver of kernel/src/apic.cpp and kernel/src/apic.c, run against a
 * simulated 4 KiB block of 32-bit registers that records every access in order.
 * Register offsets come from kernel/include/kernel/apic.h; the send protocol is that of
 * section 10.6.1 of Volume 3A of the Intel 64 and IA-32 Architectures Software
 * Developer's Manual.
 */
module Apic {

  const RegId: bv32 := 0x020
  const RegTpr: bv32 := 0x080
  const RegEoi: bv32 := 0x0B0
  const RegSpurious: bv32 := 0x0F0
  const RegIcrLow: bv32 := 0x300
  const RegIcrHigh: bv32 := 0x310

  const IpiInit: bv32 := 0x500
  const IpiStartup: bv32 := 0x600

  /** 4 KiB of registers, one 32-bit word per 4 bytes of offset. */
  const RegisterWords: nat := 1024

  /** Bit 12 of ICR low: the previous IPI has not been accepted yet. */
  const DeliveryStatus: bv32 := 0x1000

  datatype Access = Load(offset: bv32) | Store(offset: bv32, value: bv32)

  /** The word a byte offset addresses (`apicBase[offset / 4]`). */
  function WordIndex(offset: bv32): nat
  {
    (offset / 4) as nat
  }

  /** `isAvailable`: bit 9 of EDX after CPUID leaf 1; no APIC register is involved. */
  predicate IsAvailable(cpuidEdx: bv32)
  {
    cpuidEdx & (1 << 9) != 0
  }

  /** `getId`: the APIC ID sits in bits 24-31 of the ID register. */
  function IdOf(idRegister: bv32): (id: bv8)
    ensures id as bv32 == idRegister >> 24
    ensures (id as bv32) << 24 == idRegister & 0xFF00_0000
  {
    ((idRegister >> 24) & 0xFF) as bv8
  }

  /** Bit 8 of the spurious-vector register enables the APIC; bits 0-7 are the vector. */
  predicate SoftwareEnabled(spurious: bv32)
  {
    spurious & 0x100 != 0
  }

  predicate DeliveryPending(icrLow: bv32)
  {
    icrLow & DeliveryStatus != 0
  }

  /** `n` reads of ICR low, as the wait loop of `sendIPI` issues them. */
  function Polls(n: nat): (r: seq<Access>)
    ensures |r| == n
    ensures forall i :: 0 <= i < n ==> r[i] == Load(RegIcrLow)
  {
    seq(n, _ => Load(RegIcrLow))
  }

  class Apic {
    var regs: array<bv32>
    var trace: seq<Access>

    ghost predicate Valid()
      reads this
    {
      regs.Length == RegisterWords
    }

    constructor (block: seq<bv32>)
      requires |block| == RegisterWords
      ensures Valid() && fresh(regs) && regs[..] == block && trace == []
    {
      regs := new bv32[RegisterWords](i requires 0 <= i < RegisterWords => block[i]);
      trace := [];
    }

    method Read(offset: bv32) returns (value: bv32)
      requires Valid() && offset < 0x1000
      modifies this`trace
      ensures value == regs[WordIndex(offset)]
      ensures trace == old(trace) + [Load(offset)]
    {
      value := regs[WordIndex(offset)];
      trace := trace + [Load(offset)];
    }

    method Write(offset: bv32, value: bv32)
      requires Valid() && offset < 0x1000
      modifies this`trace, regs
      ensures regs[..] == old(regs[..])[WordIndex(offset) := value]
      ensures trace == old(trace) + [Store(offset, value)]
    {
      regs[WordIndex(offset)] := value;
      trace := trace + [Store(offset, value)];
    }

    /** Spurious vector 0xFF with the enable bit, then task priority 0; nothing else. */
    method Init()
      requires Valid()
      modifies this`trace, regs
      ensures trace == old(trace) + [Store(RegSpurious, 0x1FF), Store(RegTpr, 0)]
      ensures regs[..] == old(regs[..])[WordIndex(RegSpurious) := 0x1FF][WordIndex(RegTpr) := 0]
      ensures SoftwareEnabled(regs[WordIndex(RegSpurious)]) && regs[WordIndex(RegSpurious)] & 0xFF == 0xFF
      ensures regs[WordIndex(RegTpr)] == 0
    {
      Write(RegSpurious, 0x1FF);
      Write(RegTpr, 0);
    }

    method GetId() returns (id: bv8)
      requires Valid()
      modifies this`trace
      ensures id == IdOf(regs[WordIndex(RegId)])
      ensures trace == old(trace) + [Load(RegId)]
    {
      var idRegister := Read(RegId);
      id := IdOf(idRegister);
    }

    /** Exactly one write: 0 to the EOI register. */
    method SendEOI()
      requires Valid()
      modifies this`trace, regs
      ensures trace == old(trace) + [Store(RegEoi, 0)]
      ensures regs[..] == old(regs[..])[WordIndex(RegEoi) := 0]
    {
      Write(RegEoi, 0);
    }

    /** Polls ICR low until its delivery-status bit reads clear, then writes the
        destination to ICR high and the mode and vector to ICR low. `busyPolls` is the
        environment: the hardware accepts the previous IPI, clearing the bit, after that
        many further polls that still read it set. */
    method SendIPI(dest: bv8, vector: bv8, mode: bv32, busyPolls: nat)
      requires Valid()
      modifies this`trace, regs
      ensures trace == old(trace)
        + Polls(if DeliveryPending(old(regs[WordIndex(RegIcrLow)])) then busyPolls + 2 else 1)
        + [Store(RegIcrHigh, (dest as bv32) << 24), Store(RegIcrLow, mode | vector as bv32)]
      ensures regs[..] == old(regs[..])[WordIndex(RegIcrHigh) := (dest as bv32) << 24][WordIndex(RegIcrLow) := mode | vector as bv32]
    {
      var pending: nat := busyPolls;
      var polls: nat := 0;
      ghost var wasPending := DeliveryPending(regs[WordIndex(RegIcrLow)]);
      while true
        invariant trace == old(trace) + Polls(polls)
        invariant forall i :: 0 <= i < regs.Length && i != WordIndex(RegIcrLow) ==> regs[i] == old(regs[i])
        invariant !wasPending ==> polls == 0 && regs[WordIndex(RegIcrLow)] == old(regs[WordIndex(RegIcrLow)])
        invariant wasPending ==>
          (DeliveryPending(regs[WordIndex(RegIcrLow)]) && pending <= busyPolls && polls == busyPolls - pending) ||
          (!DeliveryPending(regs[WordIndex(RegIcrLow)]) && pending == 0 && polls == busyPolls + 1)
        decreases pending + (if DeliveryPending(regs[WordIndex(RegIcrLow)]) then 1 else 0)
      {
        var low := Read(RegIcrLow);
        polls := polls + 1;
        if !DeliveryPending(low) {
          break;
        }
        // pause; the hardware may accept the previous IPI meanwhile
        if pending == 0 {
          regs[WordIndex(RegIcrLow)] := low & !DeliveryStatus;
        } else {
          pending := pending - 1;
        }
      }
      Write(RegIcrHigh, (dest as bv32) << 24);
      Write(RegIcrLow, mode | vector as bv32);
    }
  }
}
