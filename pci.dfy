/**
 * PCI bus enumeration of kernel/src/pci.cpp and its C twin kernel/src/pci.c:
 * configuration mechanism #1 (section 3.2.2.3.2 of the PCI Local Bus Specification
 * 3.0), decoding of the type 0 header's identification dwords, a scan of every
 * bus/device/function into a table of at most 256 devices, lookup by vendor and
 * device id, and enabling bus mastering.
 *
 * What a configuration read returns is the hardware's business: it is the parameter
 * `space`, mapping the address latched in port 0xCF8 to the dword then read from 0xCFC.
 */
module Pci {
  import opened Wrappers

  const ConfigAddressPort: bv16 := 0xCF8
  const ConfigDataPort: bv16 := 0xCFC
  const MaxDevices: nat := 256
  const BusCount: nat := 256
  const SlotCount: nat := 32
  const FunctionCount: nat := 8
  const EnableBit: bv32 := 0x8000_0000
  const NoVendor: bv16 := 0xFFFF
  const MultiFunction: bv32 := 0x0080_0000
  const BusMaster: bv32 := 0x04

  type ConfigSpace = bv32 -> bv32

  datatype Location = Location(bus: bv8, device: bv8, func: bv8)

  datatype Device = Device(
    at: Location,
    vendorId: bv16, deviceId: bv16,
    classCode: bv8, subclass: bv8, progIf: bv8, revisionId: bv8,
    bar: seq<bv32>)

  datatype PortIo = OutL(port: bv16, value: bv32) | InL(port: bv16, value: bv32)

  // ---------------------------------------------------------------------------------
  // Mechanism #1 addresses

  /** Enable bit 31, bus in bits 16-23, device from bit 11, function from bit 8, and
      the register offset with its two low bits cleared. */
  function ConfigAddress(bus: bv8, device: bv8, func: bv8, offset: bv8): (a: bv32)
    ensures a & EnableBit != 0 && a & 3 == 0
  {
    (bus as bv32 << 16) | (device as bv32 << 11) | (func as bv32 << 8) |
    ((offset & 0xFC) as bv32) | EnableBit
  }

  function AddressBus(a: bv32): bv8 { ((a >> 16) & 0xFF) as bv8 }
  function AddressDevice(a: bv32): bv8 { ((a >> 11) & 0x1F) as bv8 }
  function AddressFunction(a: bv32): bv8 { ((a >> 8) & 0x7) as bv8 }
  function AddressRegister(a: bv32): bv8 { (a & 0xFC) as bv8 }

  /** With the device below 32 and the function below 8 every field comes back out of
      the address, so distinct registers have distinct addresses. */
  lemma ConfigAddressDecodes(bus: bv8, device: bv8, func: bv8, offset: bv8)
    requires device < 32 && func < 8
    ensures var a := ConfigAddress(bus, device, func, offset);
      AddressBus(a) == bus && AddressDevice(a) == device &&
      AddressFunction(a) == func && AddressRegister(a) == offset & 0xFC
  {
  }

  /** A device number of 32 or more spills into the bus field: device 32 on bus 0 and
      device 0 on bus 1 share an address. */
  lemma WideDeviceAliasesBus()
    ensures ConfigAddress(0, 32, 0, 0) == ConfigAddress(1, 0, 0, 0)
  {
  }

  function ConfigRead(space: ConfigSpace, at: Location, offset: bv8): bv32
  {
    space(ConfigAddress(at.bus, at.device, at.func, offset))
  }

  // ---------------------------------------------------------------------------------
  // Header decoding

  /** Vendor id in the low half of dword 0x00; 0xFFFF means nothing answers there. */
  predicate Present(space: ConfigSpace, at: Location)
  {
    ConfigRead(space, at, 0x00) & 0xFFFF != 0xFFFF
  }

  predicate IsMultiFunction(space: ConfigSpace, at: Location)
  {
    ConfigRead(space, at, 0x0C) & MultiFunction != 0
  }

  function Bars(space: ConfigSpace, at: Location): (r: seq<bv32>)
    ensures |r| == 6 && forall i :: 0 <= i < 6 ==> r[i] == ConfigRead(space, at, (0x10 + 4 * i) as bv8)
  {
    seq(6, i requires 0 <= i < 6 => ConfigRead(space, at, (0x10 + 4 * i) as bv8))
  }

  /** The table entry for the function at `at`. */
  function Describe(space: ConfigSpace, at: Location): Device
  {
    Decode(at, ConfigRead(space, at, 0x00), ConfigRead(space, at, 0x08), Bars(space, at))
  }

  /** Vendor id from the low and device id from the high half of dword 0x00; class,
      subclass, programming interface and revision from bytes 3 to 0 of dword 0x08. */
  function Decode(at: Location, id: bv32, classRev: bv32, bar: seq<bv32>): Device
  {
    Device(at, (id & 0xFFFF) as bv16, ((id >> 16) & 0xFFFF) as bv16,
      ((classRev >> 24) & 0xFF) as bv8, ((classRev >> 16) & 0xFF) as bv8,
      ((classRev >> 8) & 0xFF) as bv8, (classRev & 0xFF) as bv8, bar)
  }

  /** The ids and the four class bytes are exactly the two identification dwords. */
  lemma DecodeReassembles(at: Location, id: bv32, classRev: bv32, bar: seq<bv32>)
    ensures var d := Decode(at, id, classRev, bar);
      (d.deviceId as bv32 << 16) | d.vendorId as bv32 == id &&
      (d.classCode as bv32 << 24) | (d.subclass as bv32 << 16) | (d.progIf as bv32 << 8) | d.revisionId as bv32
        == classRev
  {
    IdReassembles(id);
    ClassReassembles(classRev);
  }

  lemma VendorMask(v: bv32)
    ensures ((v & 0xFFFF) as bv16 == NoVendor) == (v & 0xFFFF == 0xFFFF)
  {
  }

  lemma IdReassembles(id: bv32)
    ensures ((((id >> 16) & 0xFFFF) as bv16) as bv32 << 16) | ((id & 0xFFFF) as bv16) as bv32 == id
  {
  }

  lemma ClassReassembles(c: bv32)
    ensures ((((c >> 24) & 0xFF) as bv8) as bv32 << 24) | ((((c >> 16) & 0xFF) as bv8) as bv32 << 16) |
      ((((c >> 8) & 0xFF) as bv8) as bv32 << 8) | ((c & 0xFF) as bv8) as bv32 == c
  {
  }

  // ---------------------------------------------------------------------------------
  // The scan order: bus 0..255, device 0..31, function 0 and, for multi-function
  // devices, functions 1..7.

  /** Devices answering at functions 1..n-1. */
  function FunctionPrefix(space: ConfigSpace, bus: nat, device: nat, n: nat): seq<Device>
    requires bus < BusCount && device < SlotCount && n <= FunctionCount
  {
    if n <= 1 then []
    else
      var at := Location(bus as bv8, device as bv8, (n - 1) as bv8);
      FunctionPrefix(space, bus, device, n - 1) + (if Present(space, at) then [Describe(space, at)] else [])
  }

  /** What one device slot contributes: nothing if function 0 is absent, otherwise
      function 0 and, when its header says so, the other functions that answer. */
  function SlotDevices(space: ConfigSpace, bus: nat, device: nat): seq<Device>
    requires bus < BusCount && device < SlotCount
  {
    var at := Location(bus as bv8, device as bv8, 0);
    if !Present(space, at) then []
    else [Describe(space, at)] + (if IsMultiFunction(space, at) then FunctionPrefix(space, bus, device, FunctionCount) else [])
  }

  /** Devices found in slots 0..n-1 of one bus. */
  function BusPrefix(space: ConfigSpace, bus: nat, n: nat): seq<Device>
    requires bus < BusCount && n <= SlotCount
  {
    if n == 0 then [] else BusPrefix(space, bus, n - 1) + SlotDevices(space, bus, n - 1)
  }

  /** Devices found on buses 0..n-1. */
  function ScanPrefix(space: ConfigSpace, n: nat): seq<Device>
    requires n <= BusCount
  {
    if n == 0 then [] else ScanPrefix(space, n - 1) + BusPrefix(space, n - 1, SlotCount)
  }

  /** Every device that answers, in scan order. */
  function Found(space: ConfigSpace): seq<Device>
  {
    ScanPrefix(space, BusCount)
  }

  /** Every device the scan lists answers at its own location. */
  lemma {:induction false} FoundArePresent(space: ConfigSpace, n: nat)
    requires n <= BusCount
    ensures forall d :: d in ScanPrefix(space, n) ==> Present(space, d.at) && d == Describe(space, d.at)
  {
    if n > 0 {
      FoundArePresent(space, n - 1);
      BusArePresent(space, n - 1, SlotCount);
    }
  }

  lemma {:induction false} BusArePresent(space: ConfigSpace, bus: nat, n: nat)
    requires bus < BusCount && n <= SlotCount
    ensures forall d :: d in BusPrefix(space, bus, n) ==> Present(space, d.at) && d == Describe(space, d.at)
  {
    if n > 0 {
      BusArePresent(space, bus, n - 1);
      FunctionsArePresent(space, bus, n - 1, FunctionCount);
    }
  }

  lemma {:induction false} FunctionsArePresent(space: ConfigSpace, bus: nat, device: nat, n: nat)
    requires bus < BusCount && device < SlotCount && n <= FunctionCount
    ensures forall d :: d in FunctionPrefix(space, bus, device, n) ==> Present(space, d.at) && d == Describe(space, d.at)
  {
    if n > 1 {
      FunctionsArePresent(space, bus, device, n - 1);
    }
  }

  // ---------------------------------------------------------------------------------
  // The bounded table

  /** Appending one device while there is room; a full table drops it. */
  function Push(table: seq<Device>, d: Device): seq<Device>
  {
    if |table| < MaxDevices then table + [d] else table
  }

  /** The table after appending `xs` one by one. */
  function AppendCapped(table: seq<Device>, xs: seq<Device>): seq<Device>
  {
    if xs == [] then table else Push(AppendCapped(table, xs[..|xs| - 1]), xs[|xs| - 1])
  }

  lemma {:induction false} AppendCappedSnoc(table: seq<Device>, xs: seq<Device>, d: Device)
    ensures AppendCapped(table, xs + [d]) == Push(AppendCapped(table, xs), d)
  {
    assert (xs + [d])[..|xs|] == xs;
  }

  /** Appending one by one keeps as many of the new devices as fit, in order, and
      never grows the table past 256. */
  lemma {:induction false} AppendCappedKeepsPrefix(table: seq<Device>, xs: seq<Device>)
    requires |table| <= MaxDevices
    ensures var n := if |table| + |xs| <= MaxDevices then |table| + |xs| else MaxDevices;
      AppendCapped(table, xs) == (table + xs)[..n]
    decreases |xs|
  {
    if xs != [] {
      var ys := xs[..|xs| - 1];
      AppendCappedKeepsPrefix(table, ys);
      assert table + xs == (table + ys) + [xs[|xs| - 1]];
    }
  }

  class PciManager {
    var devices: array<Device>
    var deviceCount: nat
    /** Port traffic of `ReadConfig`, `WriteConfig` and `EnableBusMastering`. */
    var io: seq<PortIo>

    ghost predicate Valid()
      reads this
    {
      devices.Length == MaxDevices && deviceCount <= MaxDevices
    }

    /** The devices found so far. */
    ghost function Table(): (t: seq<Device>)
      reads this, devices
      requires Valid()
      ensures |t| <= MaxDevices
    {
      devices[..deviceCount]
    }

    constructor (blank: Device)
      ensures Valid() && fresh(devices) && deviceCount == 0 && Table() == [] && io == []
    {
      devices := new Device[MaxDevices](_ => blank);
      deviceCount := 0;
      io := [];
    }

    /** Latches the address, then reads the data port. */
    method ReadConfig(space: ConfigSpace, bus: bv8, device: bv8, func: bv8, offset: bv8) returns (v: bv32)
      modifies this`io
      ensures v == space(ConfigAddress(bus, device, func, offset))
      ensures io == old(io) + [OutL(ConfigAddressPort, ConfigAddress(bus, device, func, offset)), InL(ConfigDataPort, v)]
    {
      var address := (bus as bv32 << 16) | (device as bv32 << 11) | (func as bv32 << 8) |
        ((offset & 0xFC) as bv32) | EnableBit;
      io := io + [OutL(ConfigAddressPort, address)];
      v := space(address);
      io := io + [InL(ConfigDataPort, v)];
    }

    /** Latches the address, then writes the data port. */
    method WriteConfig(bus: bv8, device: bv8, func: bv8, offset: bv8, value: bv32)
      modifies this`io
      ensures io == old(io) + [OutL(ConfigAddressPort, ConfigAddress(bus, device, func, offset)), OutL(ConfigDataPort, value)]
    {
      var address := (bus as bv32 << 16) | (device as bv32 << 11) | (func as bv32 << 8) |
        ((offset & 0xFC) as bv32) | EnableBit;
      io := io + [OutL(ConfigAddressPort, address)];
      io := io + [OutL(ConfigDataPort, value)];
    }

    /** Stores the function at `at` unless nothing answers there or the table is full. */
    method ProbeDevice(space: ConfigSpace, at: Location)
      requires Valid()
      modifies devices, this`deviceCount
      ensures Valid()
      ensures Table() == (if Present(space, at) then Push(old(Table()), Describe(space, at)) else old(Table()))
    {
      var vendorDevice := ConfigRead(space, at, 0x00);
      var vendorId := (vendorDevice & 0xFFFF) as bv16;
      assert vendorId == NoVendor <==> !Present(space, at) by {
        VendorMask(vendorDevice);
      }
      if vendorId == NoVendor {
        return;
      }
      var classRev := ConfigRead(space, at, 0x08);
      if deviceCount < MaxDevices {
        var bar := ReadBars(space, at);
        devices[deviceCount] := Decode(at, vendorDevice, classRev, bar);
        deviceCount := deviceCount + 1;
        assert Table() == old(Table()) + [Describe(space, at)];
      }
    }

    /** The six base address registers, from offsets 0x10, 0x14, ..., 0x24. */
    static method ReadBars(space: ConfigSpace, at: Location) returns (bar: seq<bv32>)
      ensures bar == Bars(space, at)
    {
      bar := [];
      var i := 0;
      while i < 6
        invariant 0 <= i <= 6 && bar == Bars(space, at)[..i]
      {
        bar := bar + [ConfigRead(space, at, (0x10 + i * 4) as bv8)];
        i := i + 1;
      }
    }

    /** Functions 1..7 of a multi-function device. */
    method ScanFunctions(space: ConfigSpace, bus: nat, device: nat)
      requires Valid() && bus < BusCount && device < SlotCount
      modifies devices, this`deviceCount
      ensures Valid()
      ensures Table() == AppendCapped(old(Table()), FunctionPrefix(space, bus, device, FunctionCount))
    {
      ghost var start := Table();
      var func := 1;
      while func < FunctionCount
        invariant 1 <= func <= FunctionCount && Valid()
        invariant Table() == AppendCapped(start, FunctionPrefix(space, bus, device, func))
      {
        var at := Location(bus as bv8, device as bv8, func as bv8);
        ghost var before := FunctionPrefix(space, bus, device, func);
        if (ConfigRead(space, at, 0x00) & 0xFFFF) != 0xFFFF {
          ProbeDevice(space, at);
          assert FunctionPrefix(space, bus, device, func + 1) == before + [Describe(space, at)];
          AppendCappedSnoc(start, before, Describe(space, at));
        } else {
          assert FunctionPrefix(space, bus, device, func + 1) == before + [];
          assert before + [] == before;
        }
        func := func + 1;
      }
    }

    /** One device slot: function 0, then the others if the header type's bit 23 is set. */
    method ScanSlot(space: ConfigSpace, bus: nat, device: nat)
      requires Valid() && bus < BusCount && device < SlotCount
      modifies devices, this`deviceCount
      ensures Valid()
      ensures Table() == AppendCapped(old(Table()), SlotDevices(space, bus, device))
    {
      ghost var start := Table();
      var at := Location(bus as bv8, device as bv8, 0);
      if (ConfigRead(space, at, 0x00) & 0xFFFF) == 0xFFFF {
        return;
      }
      ProbeDevice(space, at);
      AppendCappedSnoc(start, [], Describe(space, at));
      assert [] + [Describe(space, at)] == [Describe(space, at)];
      var headerType := ConfigRead(space, at, 0x0C);
      if headerType & MultiFunction != 0 {
        ScanFunctions(space, bus, device);
        AppendCappedConcat(start, [Describe(space, at)], FunctionPrefix(space, bus, device, FunctionCount));
      } else {
        assert SlotDevices(space, bus, device) == [Describe(space, at)] + [];
        assert [Describe(space, at)] + [] == [Describe(space, at)];
      }
    }

    /** Every device slot of one bus, in order. */
    method ScanBus(space: ConfigSpace, bus: nat)
      requires Valid() && bus < BusCount
      modifies devices, this`deviceCount
      ensures Valid()
      ensures Table() == AppendCapped(old(Table()), BusPrefix(space, bus, SlotCount))
    {
      ghost var start := Table();
      var device := 0;
      while device < SlotCount
        invariant 0 <= device <= SlotCount && Valid()
        invariant Table() == AppendCapped(start, BusPrefix(space, bus, device))
      {
        ScanSlot(space, bus, device);
        AppendCappedConcat(start, BusPrefix(space, bus, device), SlotDevices(space, bus, device));
        device := device + 1;
      }
    }

    /** `pci_init`: scans every bus without resetting the count, so what it finds is
        appended to whatever the table already holds. */
    method Scan(space: ConfigSpace)
      requires Valid()
      modifies devices, this`deviceCount
      ensures Valid()
      ensures Table() == AppendCapped(old(Table()), Found(space))
    {
      ghost var start := Table();
      var bus := 0;
      while bus < BusCount
        invariant 0 <= bus <= BusCount && Valid()
        invariant Table() == AppendCapped(start, ScanPrefix(space, bus))
      {
        ScanBus(space, bus);
        AppendCappedConcat(start, ScanPrefix(space, bus), BusPrefix(space, bus, SlotCount));
        bus := bus + 1;
      }
    }

    /** `PCIManager::init`: resets the table, then scans. The table holds the first 256
        devices in scan order, each answering at its own location. */
    method Init(space: ConfigSpace)
      requires Valid()
      modifies devices, this`deviceCount
      ensures Valid()
      ensures Table() == AppendCapped([], Found(space))
      ensures Table() == Found(space)[..if |Found(space)| <= MaxDevices then |Found(space)| else MaxDevices]
      ensures forall d :: d in Table() ==> Present(space, d.at) && d == Describe(space, d.at)
    {
      deviceCount := 0;
      assert Table() == [];
      Scan(space);
      FreshTable(Found(space));
      FoundArePresent(space, BusCount);
    }

    /** The lowest-index stored device with both ids, or `None` (a null pointer). */
    method FindDevice(vendorId: bv16, deviceId: bv16) returns (r: Option<nat>)
      requires Valid()
      ensures r.Some? ==> (r.value < deviceCount &&
        devices[r.value].vendorId == vendorId && devices[r.value].deviceId == deviceId &&
        forall j :: 0 <= j < r.value ==> !(devices[j].vendorId == vendorId && devices[j].deviceId == deviceId))
      ensures r.None? ==>
        forall j :: 0 <= j < deviceCount ==> !(devices[j].vendorId == vendorId && devices[j].deviceId == deviceId)
    {
      var i := 0;
      while i < deviceCount
        invariant 0 <= i <= deviceCount
        invariant forall j :: 0 <= j < i ==> !(devices[j].vendorId == vendorId && devices[j].deviceId == deviceId)
      {
        if devices[i].vendorId == vendorId && devices[i].deviceId == deviceId {
          return Some(i);
        }
        i := i + 1;
      }
      return None;
    }

    /** Nothing for a null device; otherwise reads the command dword (offset 0x04) and
        writes it back with the bus-master bit set. */
    method EnableBusMastering(space: ConfigSpace, dev: Option<Device>)
      modifies this`io
      ensures dev.None? ==> io == old(io)
      ensures dev.Some? ==>
        var a := ConfigAddress(dev.value.at.bus, dev.value.at.device, dev.value.at.func, 0x04);
        io == old(io) + [OutL(ConfigAddressPort, a), InL(ConfigDataPort, space(a)),
                         OutL(ConfigAddressPort, a), OutL(ConfigDataPort, WithBusMaster(space(a)))]
    {
      if dev.None? {
        return;
      }
      var d := dev.value;
      var command := ReadConfig(space, d.at.bus, d.at.device, d.at.func, 0x04);
      command := command | BusMaster;
      WriteConfig(d.at.bus, d.at.device, d.at.func, 0x04, command);
    }
  }

  function WithBusMaster(command: bv32): bv32
  {
    command | BusMaster
  }

  /** The written command has bit 2 set and every other bit as read. */
  lemma BusMasterOnlyBitTwo(command: bv32)
    ensures WithBusMaster(command) & BusMaster != 0
    ensures WithBusMaster(command) & !BusMaster == command & !BusMaster
  {
  }

  lemma {:induction false} AppendCappedConcat(table: seq<Device>, xs: seq<Device>, ys: seq<Device>)
    ensures AppendCapped(table, xs + ys) == AppendCapped(AppendCapped(table, xs), ys)
    decreases |ys|
  {
    if ys == [] {
      assert xs + ys == xs;
    } else {
      var zs := ys[..|ys| - 1];
      AppendCappedConcat(table, xs, zs);
      assert xs + ys == (xs + zs) + [ys[|ys| - 1]];
      AppendCappedSnoc(table, xs + zs, ys[|ys| - 1]);
    }
  }

  /** A scan into an empty table keeps the first 256 devices found, in order. */
  lemma {:induction false} FreshTable(xs: seq<Device>)
    ensures AppendCapped([], xs) == xs[..if |xs| <= MaxDevices then |xs| else MaxDevices]
  {
    AppendCappedKeepsPrefix([], xs);
    assert [] + xs == xs;
  }

  /** Scanning a second time without the reset lists every device again, as long as
      both copies fit. */
  lemma RescanDuplicates(space: ConfigSpace)
    requires 2 * |Found(space)| <= MaxDevices
    ensures AppendCapped(AppendCapped([], Found(space)), Found(space)) == Found(space) + Found(space)
  {
    AppendedTwice(Found(space));
  }

  lemma {:induction false} AppendedTwice(xs: seq<Device>)
    requires 2 * |xs| <= MaxDevices
    ensures AppendCapped(AppendCapped([], xs), xs) == xs + xs
  {
    assert AppendCapped([], xs) == xs by {
      AppendCappedKeepsPrefix([], xs);
      assert ([] + xs)[..|xs|] == xs;
    }
    assert AppendCapped(xs, xs) == xs + xs by {
      AppendCappedKeepsPrefix(xs, xs);
      assert (xs + xs)[..|xs| + |xs|] == xs + xs;
    }
  }
}
