/**
 * The dispatch table manager of kernel/src/interrupts.cpp and kernel/src/interrupts.c:
 * the 256-entry long-mode interrupt descriptor table (section 6.14.1 of Volume 3A of the
 * Intel 64 and IA-32 Architectures Software Developer's Manual, layout of `idt_entry_t`),
 * the remapping of the two cascaded Intel 8259A interrupt controllers, and the
 * end-of-interrupt writes of the runtime handler.
 *
 * Port writes, the timer callback, the APIC acknowledgement, `lidt` and `sti` are events
 * appended to a trace.
 */
module Interrupts {

  /** One 16-byte gate, field by field as `idt_entry_t` lays it out. */
  datatype IdtEntry = IdtEntry(
    offsetLow: bv16,
    selector: bv16,
    ist: bv8,
    typeAttr: bv8,
    offsetMid: bv16,
    offsetHigh: bv32,
    zero: bv32)

  const EntryCount: nat := 256
  const EntrySize: nat := 16
  const ZeroGate := IdtEntry(0, 0, 0, 0, 0, 0, 0)

  const KernelCodeSelector: bv16 := 0x08
  /** Present, privilege level 0, 64-bit interrupt gate. */
  const InterruptGate: bv8 := 0x8E

  const Pic1Command: bv16 := 0x20
  const Pic1Data: bv16 := 0x21
  const Pic2Command: bv16 := 0xA0
  const Pic2Data: bv16 := 0xA1
  const PicEoi: bv8 := 0x20

  /** What the handler and `init` do outside the table. */
  datatype Event =
    | OutB(port: bv16, value: bv8)
    | TimerCallback
    | ApicEoi
    | LoadIdt(limit: bv16)
    | EnableInterrupts

  /** The handler address the processor reassembles from the three offset fields. */
  function Handler(e: IdtEntry): bv64
  {
    (e.offsetHigh as bv64 << 32) | (e.offsetMid as bv64 << 16) | e.offsetLow as bv64
  }

  predicate GatePresent(e: IdtEntry)
  {
    e.typeAttr & 0x80 != 0
  }

  /** The packing done by `setGate`: bits 0-15, 16-31 and 32-63 of the handler go to
      the three offset fields; `ist` and the reserved word are always zero. */
  function PackGate(handler: bv64, selector: bv16, flags: bv8): (e: IdtEntry)
    ensures Handler(e) == handler
    ensures e.selector == selector && e.typeAttr == flags
    ensures e.ist == 0 && e.zero == 0
  {
    IdtEntry(
      (handler & 0xFFFF) as bv16,
      selector,
      0,
      flags,
      ((handler >> 16) & 0xFFFF) as bv16,
      ((handler >> 32) & 0xFFFF_FFFF) as bv32,
      0)
  }

  /** Clearing a gate with `setGate(i, 0, 0, 0)` gives the all-zero entry. */
  lemma ClearedGateIsZero()
    ensures PackGate(0, 0, 0) == ZeroGate
  {
  }

  /** The table `init` leaves: `stubs` holds the addresses of isr0..isr31, irq0 and irq1
      (vectors 0..33); every other vector stays all-zero. */
  function InstalledTable(stubs: seq<bv64>): (t: seq<IdtEntry>)
    requires |stubs| == 34
    ensures |t| == EntryCount
    ensures forall v :: 0 <= v < 34 ==>
      t[v].selector == KernelCodeSelector && t[v].typeAttr == InterruptGate && GatePresent(t[v]) &&
      Handler(t[v]) == stubs[v]
    ensures forall v :: 34 <= v < EntryCount ==> t[v] == ZeroGate && !GatePresent(t[v])
  {
    seq(EntryCount, v requires 0 <= v < EntryCount =>
      if v < 34 then PackGate(stubs[v], KernelCodeSelector, InterruptGate) else ZeroGate)
  }

  /** With linked (non-null) stubs, every installed vector has a non-zero handler. */
  lemma InstalledHandlersNonZero(stubs: seq<bv64>, v: nat)
    requires |stubs| == 34 && forall k :: 0 <= k < 34 ==> stubs[k] != 0
    requires v < EntryCount
    ensures GatePresent(InstalledTable(stubs)[v]) <==> v < 34
    ensures GatePresent(InstalledTable(stubs)[v]) ==> Handler(InstalledTable(stubs)[v]) != 0
  {
  }

  /** ICW1 to ICW4 for both controllers, then both masks set to 0xFF. */
  function RemapSequence(): seq<Event>
  {
    [ OutB(Pic1Command, 0x11), OutB(Pic2Command, 0x11),
      OutB(Pic1Data, 0x20), OutB(Pic2Data, 0x28),
      OutB(Pic1Data, 0x04), OutB(Pic2Data, 0x02),
      OutB(Pic1Data, 0x01), OutB(Pic2Data, 0x01),
      OutB(Pic1Data, 0xFF), OutB(Pic2Data, 0xFF) ]
  }

  // ---------------------------------------------------------------------------------
  // A reference model of one Intel 8259A, to read the port writes against.

  /** Which initialization word a controller expects next on its data port. */
  datatype Stage = Ready | AwaitIcw2 | AwaitIcw3 | AwaitIcw4

  datatype Pic = Pic(stage: Stage, single: bool, needsIcw4: bool, offset: bv8, cascade: bv8, mode: bv8, mask: bv8)

  /** One byte written to the command port (`command`) or the data port of a controller.
      A command byte with bit 4 set is ICW1: it restarts initialization and clears the
      mask; bit 1 says "single" (no ICW3), bit 0 that an ICW4 follows. Other command bytes
      (end-of-interrupt and the like) leave this state alone. On the data port the
      controller takes ICW2 (vector base, low three bits ignored), ICW3, ICW4, and once
      ready, a new mask. */
  function PicWrite(p: Pic, command: bool, value: bv8): Pic
  {
    if command then
      if value & 0x10 != 0 then
        p.(stage := AwaitIcw2, single := value & 0x02 != 0, needsIcw4 := value & 0x01 != 0, mask := 0)
      else p
    else match p.stage
      case AwaitIcw2 =>
        p.(offset := value & 0xF8,
           stage := if !p.single then AwaitIcw3 else if p.needsIcw4 then AwaitIcw4 else Ready)
      case AwaitIcw3 => p.(cascade := value, stage := if p.needsIcw4 then AwaitIcw4 else Ready)
      case AwaitIcw4 => p.(mode := value, stage := Ready)
      case Ready => p.(mask := value)
  }

  /** The pair of controllers: `master` on ports 0x20/0x21, `slave` on 0xA0/0xA1. */
  datatype Pics = Pics(master: Pic, slave: Pic)

  /** The effect of one event on the controllers; events other than port writes to
      0x20/0x21/0xA0/0xA1 leave them alone. */
  function ApplyOne(s: Pics, e: Event): Pics
  {
    if !e.OutB? then s
    else if e.port == Pic1Command || e.port == Pic1Data then s.(master := PicWrite(s.master, e.port == Pic1Command, e.value))
    else if e.port == Pic2Command || e.port == Pic2Data then s.(slave := PicWrite(s.slave, e.port == Pic2Command, e.value))
    else s
  }

  function Apply(s: Pics, events: seq<Event>): Pics
    decreases |events|
  {
    if events == [] then s else Apply(ApplyOne(s, events[0]), events[1..])
  }

  lemma ApplyDrop(s: Pics, events: seq<Event>, k: nat)
    requires k < |events|
    ensures Apply(s, events[k..]) == Apply(ApplyOne(s, events[k]), events[k + 1..])
  {
    assert events[k..][0] == events[k];
    assert events[k..][1..] == events[k + 1..];
  }

  /** Whatever state the controllers were in, the remap sequence leaves the master
      delivering lines 0-7 at vectors 0x20-0x27 with the slave on its line 2, the slave
      delivering lines 8-15 at 0x28-0x2F as cascade identity 2, both in 8086 mode, and
      every line masked. */
  lemma RemapResult(s: Pics)
    ensures Apply(s, RemapSequence()).master == Pic(Ready, false, true, 0x20, 0x04, 0x01, 0xFF)
    ensures Apply(s, RemapSequence()).slave == Pic(Ready, false, true, 0x28, 0x02, 0x01, 0xFF)
  {
    var r := RemapSequence();
    assert r[0..] == r;
    var s1 := ApplyOne(s, r[0]); ApplyDrop(s, r, 0);
    var s2 := ApplyOne(s1, r[1]); ApplyDrop(s1, r, 1);
    var s3 := ApplyOne(s2, r[2]); ApplyDrop(s2, r, 2);
    var s4 := ApplyOne(s3, r[3]); ApplyDrop(s3, r, 3);
    var s5 := ApplyOne(s4, r[4]); ApplyDrop(s4, r, 4);
    var s6 := ApplyOne(s5, r[5]); ApplyDrop(s5, r, 5);
    var s7 := ApplyOne(s6, r[6]); ApplyDrop(s6, r, 6);
    var s8 := ApplyOne(s7, r[7]); ApplyDrop(s7, r, 7);
    var s9 := ApplyOne(s8, r[8]); ApplyDrop(s8, r, 8);
    var s10 := ApplyOne(s9, r[9]); ApplyDrop(s9, r, 9);
    assert r[10..] == [];
    assert s2.master.stage == AwaitIcw2 && s2.slave.stage == AwaitIcw2;
    assert s4.master.stage == AwaitIcw3 && s4.slave.stage == AwaitIcw3;
    assert s6.master.stage == AwaitIcw4 && s6.slave.stage == AwaitIcw4;
    assert s8.master.stage == Ready && s8.slave.stage == Ready;
  }

  /** The command ports that must see an end-of-interrupt for vector `v`, given the
      controllers' programmed vector bases: a line of the slave is acknowledged on the
      slave and then on the master it cascades through; a line of the master only there. */
  function NeededEois(s: Pics, v: nat): seq<Event>
  {
    if s.slave.offset as nat <= v < s.slave.offset as nat + 8 then [OutB(Pic2Command, PicEoi), OutB(Pic1Command, PicEoi)]
    else if s.master.offset as nat <= v < s.master.offset as nat + 8 then [OutB(Pic1Command, PicEoi)]
    else []
  }

  // ---------------------------------------------------------------------------------
  // Runtime dispatch

  /** The events of the C++ `handleInterrupt` for vector `intNo`: the timer callback
      for vector 32, then, for vectors 32-47, one APIC acknowledgement when multicore
      mode is on and an APIC is present, or else the legacy writes. */
  function Dispatch(intNo: nat, smpEnabled: bool, apicAvailable: bool): (r: seq<Event>)
    ensures (TimerCallback in r) <==> intNo == 32
    ensures intNo == 32 ==> r[0] == TimerCallback
    ensures !(32 <= intNo < 48) ==> forall e :: e in r ==> e == TimerCallback
    ensures 32 <= intNo < 48 && smpEnabled && apicAvailable ==> |r| >= 1 && r[|r| - 1] == ApicEoi && forall e :: e in r ==> !e.OutB?
    ensures 32 <= intNo < 48 && smpEnabled && apicAvailable ==>
      r == (if intNo == 32 then [TimerCallback] else []) + [ApicEoi]
    ensures !(smpEnabled && apicAvailable) ==> ApicEoi !in r
  {
    (if intNo == 32 then [TimerCallback] else [])
    + (if 32 <= intNo < 48 then
        if smpEnabled && apicAvailable then [ApicEoi] else LegacyDispatch(intNo)
       else [])
  }

  /** The C `interrupt_handler`: no timer callback and no APIC path; for vectors 32-47
      it acknowledges the slave (vectors 40 and up) and then the master. */
  function LegacyDispatch(intNo: nat): (r: seq<Event>)
    ensures forall e :: e in r ==> e.OutB? && e.value == PicEoi
    ensures |r| == if 32 <= intNo < 40 then 1 else if 40 <= intNo < 48 then 2 else 0
  {
    if 32 <= intNo < 48 then
      (if intNo >= 40 then [OutB(Pic2Command, PicEoi)] else []) + [OutB(Pic1Command, PicEoi)]
    else []
  }

  /** The C handler is the C++ one in single-core mode with the timer callback removed. */
  lemma CVariantIsLegacyPath(intNo: nat, apicAvailable: bool)
    ensures Dispatch(intNo, false, apicAvailable) == (if intNo == 32 then [TimerCallback] else []) + LegacyDispatch(intNo)
  {
  }

  /** With the vector bases the remap programs, the legacy writes for a hardware
      vector are exactly the acknowledgements its controllers need. */
  lemma LegacyEoiMatchesBases(p: Pics, intNo: nat)
    requires 32 <= intNo < 48
    requires p.master.offset == 0x20 && p.slave.offset == 0x28
    ensures LegacyDispatch(intNo) == NeededEois(p, intNo)
  {
    assert p.master.offset as nat == 32 && p.slave.offset as nat == 40;
  }

  /** In legacy mode, after the remap, each hardware vector 32-47 is acknowledged on
      exactly the controllers that delivered it, slave first. */
  lemma LegacyEoiMatchesRemap(s: Pics, intNo: nat, smpEnabled: bool, apicAvailable: bool)
    requires 32 <= intNo < 48 && !(smpEnabled && apicAvailable)
    ensures Dispatch(intNo, smpEnabled, apicAvailable) ==
      (if intNo == 32 then [TimerCallback] else []) + NeededEois(Apply(s, RemapSequence()), intNo)
  {
    RemapResult(s);
    LegacyEoiMatchesBases(Apply(s, RemapSequence()), intNo);
  }

  /** Vector 32 in single-core mode: one acknowledgement of the master and no APIC
      write; vector 44: the slave, then the master. */
  lemma LegacyScenario(apicAvailable: bool)
    ensures Dispatch(32, false, apicAvailable) == [TimerCallback, OutB(Pic1Command, PicEoi)]
    ensures Dispatch(44, false, apicAvailable) == [OutB(Pic2Command, PicEoi), OutB(Pic1Command, PicEoi)]
  {
  }

  // ---------------------------------------------------------------------------------

  class InterruptManager {
    var idt: array<IdtEntry>
    var limit: bv16
    var events: seq<Event>

    /** The table has 256 gates and its pointer's limit is 256 * 16 - 1, as the
        constructor sets it; nothing else writes the limit. */
    ghost predicate Valid()
      reads this
    {
      idt.Length == EntryCount && limit == 4095
    }

    constructor ()
      ensures Valid() && fresh(idt)
      ensures limit as int == EntryCount * EntrySize - 1 == 4095
      ensures idt[..] == seq(EntryCount, _ => ZeroGate)
      ensures events == []
    {
      idt := new IdtEntry[EntryCount](_ => ZeroGate);
      limit := 4095;
      events := [];
    }

    /** Rewrites gate `num` and no other. */
    method SetGate(num: nat, handler: bv64, selector: bv16, flags: bv8)
      requires Valid() && num < EntryCount
      modifies idt
      ensures idt[..] == old(idt[..])[num := PackGate(handler, selector, flags)]
    {
      idt[num] := PackGate(handler, selector, flags);
    }

    method RemapPIC()
      modifies this`events
      ensures events == old(events) + RemapSequence()
    {
      events := events + [OutB(Pic1Command, 0x11), OutB(Pic2Command, 0x11)];
      events := events + [OutB(Pic1Data, 0x20), OutB(Pic2Data, 0x28)];
      events := events + [OutB(Pic1Data, 0x04), OutB(Pic2Data, 0x02)];
      events := events + [OutB(Pic1Data, 0x01), OutB(Pic2Data, 0x01)];
      events := events + [OutB(Pic1Data, 0xFF), OutB(Pic2Data, 0xFF)];
    }

    /** Clears all 256 gates, installs the 32 exception stubs, remaps the controllers,
        installs irq0 and irq1, loads the table and enables interrupts. `stubs` are the
        link-time addresses of isr0..isr31, irq0, irq1. */
    method Init(stubs: seq<bv64>)
      requires Valid() && |stubs| == 34
      modifies this`events, idt
      ensures Valid() && limit == 4095
      ensures idt[..] == InstalledTable(stubs)
      ensures events == old(events) + RemapSequence() + [LoadIdt(4095), EnableInterrupts]
    {
      var i := 0;
      while i < EntryCount
        invariant 0 <= i <= EntryCount
        invariant forall k :: 0 <= k < i ==> idt[k] == ZeroGate
        invariant events == old(events)
      {
        SetGate(i, 0, 0, 0);
        i := i + 1;
      }
      var v := 0;
      while v < 32
        invariant 0 <= v <= 32
        invariant forall k :: 0 <= k < v ==> idt[k] == PackGate(stubs[k], KernelCodeSelector, InterruptGate)
        invariant forall k :: v <= k < EntryCount ==> idt[k] == ZeroGate
        invariant events == old(events)
      {
        SetGate(v, stubs[v], KernelCodeSelector, InterruptGate);
        v := v + 1;
      }
      RemapPIC();
      SetGate(32, stubs[32], KernelCodeSelector, InterruptGate);
      SetGate(33, stubs[33], KernelCodeSelector, InterruptGate);
      events := events + [LoadIdt(limit), EnableInterrupts];
      assert idt[..] == InstalledTable(stubs);
    }

    method HandleInterrupt(intNo: nat, smpEnabled: bool, apicAvailable: bool)
      modifies this`events
      ensures events == old(events) + Dispatch(intNo, smpEnabled, apicAvailable)
    {
      if intNo == 32 {
        events := events + [TimerCallback];
      }
      if 32 <= intNo < 48 {
        if smpEnabled && apicAvailable {
          events := events + [ApicEoi];
        } else {
          if intNo >= 40 {
            events := events + [OutB(Pic2Command, PicEoi)];
          }
          events := events + [OutB(Pic1Command, PicEoi)];
        }
      }
    }
  }
}
