/**
 * Helpers of the UEFI bootloader in bootloader/src/main.c: GUID comparison, the search
 * of the firmware's configuration table for the ACPI 2.0 RSDP (section 4.6 of the UEFI
 * Specification), the byte fill and copy loops, status printing and the extraction of
 * framebuffer geometry from the Graphics Output Protocol.
 *
 * Firmware calls are inputs: what `LocateProtocol` answers, whether a console is
 * there to print on.
 */
module Bootloader {
  import opened Wrappers
  import Memory

  const EfiSuccess: bv64 := 0

  /** An `EFI_GUID`: 32-, 16- and 16-bit fields and eight bytes. */
  datatype Guid = Guid(data1: bv32, data2: bv16, data3: bv16, data4: seq<bv8>)

  predicate WellFormed(g: Guid)
  {
    |g.data4| == 8
  }

  /** `EFI_ACPI_20_TABLE_GUID`, {8868E871-E4F1-11D3-BC22-0080C73C8881}. */
  const Acpi20TableGuid: Guid := Guid(0x8868_E871, 0xE4F1, 0x11D3, [0xBC, 0x22, 0x00, 0x80, 0xC7, 0x3C, 0x88, 0x81])

  /** 1 when the GUIDs agree in every field, 0 otherwise; fields are compared in order
      and the bytes from the first. */
  function GuidCompare(a: Guid, b: Guid): (r: int)
    requires WellFormed(a) && WellFormed(b)
    ensures r == 0 || r == 1
    ensures r == 1 <==> a == b
  {
    if a.data1 != b.data1 then 0
    else if a.data2 != b.data2 then 0
    else if a.data3 != b.data3 then 0
    else if BytesEqualFrom(a.data4, b.data4, 0) then 1
    else 0
  }

  /** The byte loop from position `i` on. */
  function BytesEqualFrom(a: seq<bv8>, b: seq<bv8>, i: nat): (r: bool)
    requires |a| == |b| && i <= |a|
    ensures r <==> a[i..] == b[i..]
    decreases |a| - i
  {
    if i == |a| then true
    else if a[i] != b[i] then false
    else
      assert a[i..] == [a[i]] + a[i + 1..] && b[i..] == [b[i]] + b[i + 1..];
      BytesEqualFrom(a, b, i + 1)
  }

  /** An `EFI_CONFIGURATION_TABLE` entry: a GUID and the address of its table. */
  datatype ConfigurationEntry = ConfigurationEntry(vendorGuid: Guid, vendorTable: nat)

  /** The table of the first entry carrying the ACPI 2.0 GUID, or `None` (a null
      pointer) when no entry does. */
  function GetRsdp(table: seq<ConfigurationEntry>): (r: Option<nat>)
    requires forall i :: 0 <= i < |table| ==> WellFormed(table[i].vendorGuid)
    ensures r.None? <==> forall i :: 0 <= i < |table| ==> table[i].vendorGuid != Acpi20TableGuid
    ensures r.Some? ==> exists k :: (0 <= k < |table| && table[k].vendorGuid == Acpi20TableGuid &&
      r.value == table[k].vendorTable &&
      forall j :: 0 <= j < k ==> table[j].vendorGuid != Acpi20TableGuid)
  {
    SearchFrom(table, 0)
  }

  function SearchFrom(table: seq<ConfigurationEntry>, i: nat): (r: Option<nat>)
    requires i <= |table| && forall j :: 0 <= j < |table| ==> WellFormed(table[j].vendorGuid)
    ensures r.None? <==> forall j :: i <= j < |table| ==> table[j].vendorGuid != Acpi20TableGuid
    ensures r.Some? ==> exists k :: (i <= k < |table| && table[k].vendorGuid == Acpi20TableGuid &&
      r.value == table[k].vendorTable &&
      forall j :: i <= j < k ==> table[j].vendorGuid != Acpi20TableGuid)
    decreases |table| - i
  {
    if i == |table| then None
    else if GuidCompare(table[i].vendorGuid, Acpi20TableGuid) == 1 then Some(table[i].vendorTable)
    else SearchFrom(table, i + 1)
  }

  /** `efi_memset`: the first `n` bytes become `(unsigned char)c`, the rest are
      untouched, and the buffer itself is returned. */
  method EfiMemset(s: array<bv8>, c: int, n: nat) returns (r: array<bv8>)
    requires n <= s.Length
    modifies s
    ensures r == s
    ensures s[..n] == Memory.Filled(c, n) && s[n..] == old(s[n..])
  {
    var p := 0;
    var left := n;
    while left > 0
      invariant p + left == n
      invariant s[..p] == Memory.Filled(c, p) && s[n..] == old(s[n..])
    {
      s[p] := Memory.ToByte(c);
      p := p + 1;
      left := left - 1;
    }
    return s;
  }

  /** `efi_memcpy` between distinct buffers. */
  method EfiMemcpy(dest: array<bv8>, src: array<bv8>, n: nat) returns (r: array<bv8>)
    requires n <= dest.Length && n <= src.Length && dest != src
    modifies dest
    ensures r == dest
    ensures dest[..n] == src[..n] && dest[n..] == old(dest[n..])
  {
    var p := 0;
    var left := n;
    while left > 0
      invariant p + left == n
      invariant dest[..p] == src[..p] && dest[n..] == old(dest[n..])
    {
      dest[p] := src[p];
      p := p + 1;
      left := left - 1;
    }
    return dest;
  }

  /** What `print_string` hands to the console: the string, or nothing when there is
      no console output protocol. */
  function PrintString(haveConsole: bool, str: string): (out: seq<string>)
    ensures haveConsole <==> out == [str]
    ensures !haveConsole <==> out == []
  {
    if haveConsole then [str] else []
  }

  /** The operation, then " [OK]\r\n" exactly when the status is success and
      " [FAILED]\r\n" otherwise. */
  function PrintStatus(haveConsole: bool, operation: string, status: bv64): (out: seq<string>)
    ensures !haveConsole ==> out == []
    ensures haveConsole ==> (|out| == 2 && out[0] == operation &&
      (out[1] == " [OK]\r\n" <==> status == EfiSuccess) &&
      (out[1] == " [FAILED]\r\n" <==> status != EfiSuccess))
  {
    PrintString(haveConsole, operation) +
    PrintString(haveConsole, if status == EfiSuccess then " [OK]\r\n" else " [FAILED]\r\n")
  }

  datatype ModeInformation = ModeInformation(horizontalResolution: bv32, verticalResolution: bv32, pixelsPerScanLine: bv32)
  datatype GraphicsMode = GraphicsMode(info: Option<ModeInformation>, frameBufferBase: bv64)
  /** The Graphics Output Protocol interface as far as it is read: its current mode. */
  datatype GraphicsOutput = GraphicsOutput(mode: Option<GraphicsMode>)

  datatype BootInfo = BootInfo(
    memoryMapSize: bv64, memoryMapDescriptorSize: bv64, memoryMap: nat,
    framebufferBase: bv64, framebufferWidth: bv32, framebufferHeight: bv32,
    framebufferPitch: bv32, framebufferBpp: bv32,
    kernelBase: bv64, kernelSize: bv64, rsdp: nat)

  /** `initialize_graphics`, given what `LocateProtocol` returned: a failed lookup is
      passed on; a missing interface or mode leaves the boot information alone; with a
      mode and its information, the framebuffer fields are filled in, the pitch as four
      bytes per pixel of the scan line (in 32-bit arithmetic) and 32 bits per pixel. */
  function InitializeGraphics(locateStatus: bv64, gop: Option<GraphicsOutput>, info: BootInfo): (r: (bv64, BootInfo))
    ensures r.0 != EfiSuccess <==> locateStatus != EfiSuccess
    ensures r.0 != EfiSuccess ==> r.0 == locateStatus
    ensures (locateStatus != EfiSuccess || gop.None? || gop.value.mode.None? || gop.value.mode.value.info.None?) ==>
      r.1 == info
    ensures locateStatus == EfiSuccess && gop.Some? && gop.value.mode.Some? && gop.value.mode.value.info.Some? ==>
      var m := gop.value.mode.value;
      var i := m.info.value;
      r.1 == info.(framebufferBase := m.frameBufferBase,
                   framebufferWidth := i.horizontalResolution, framebufferHeight := i.verticalResolution,
                   framebufferPitch := i.pixelsPerScanLine * 4, framebufferBpp := 32)
  {
    if locateStatus != EfiSuccess || gop.None? then (locateStatus, info)
    else match gop.value.mode
      case Some(GraphicsMode(Some(i), base)) =>
        (EfiSuccess, info.(framebufferBase := base,
                           framebufferWidth := i.horizontalResolution, framebufferHeight := i.verticalResolution,
                           framebufferPitch := i.pixelsPerScanLine * 4, framebufferBpp := 32))
      case _ => (EfiSuccess, info)
  }

  /** The pitch wraps at 2^32: a mode whose scan line holds 2^30 pixels is reported
      with a pitch of 0. */
  lemma PitchWraps(w: bv32, h: bv32, base: bv64, info: BootInfo)
    ensures var gop := GraphicsOutput(Some(GraphicsMode(Some(ModeInformation(w, h, 0x4000_0000)), base)));
      InitializeGraphics(EfiSuccess, Some(gop), info).1.framebufferPitch == 0
  {
  }
}
