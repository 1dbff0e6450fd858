/**
 * Bring-up of the application processors (kernel/src/smp.cpp and its C twin
 * kernel/src/smp.c): a table of at most 16 per-core records, a core count and a
 * multicore flag; INIT and two STARTUP inter-processor interrupts per candidate core
 * (the INIT-SIPI-SIPI sequence of section 8.4.4.1 of Volume 3A of the Intel 64 and
 * IA-32 Architectures Software Developer's Manual), then up to 100 polls of the table.
 *
 * The other cores are an environment: `env(candidate, count, poll)` is the set of table
 * slots some core marks online (the source's `markCPUOnline`) during the delay before
 * poll number `poll` of the start of `candidate` while `count` cores are counted.
 * The APIC itself appears only as the interrupts it is asked to send.
 */
module Smp {
  import opened Wrappers
  import Apic

  type Byte = x: int | 0 <= x < 256

  const MaxCpus: nat := 16
  const BspCpuId: Byte := 0
  const TrampolineAddress: nat := 0x8000
  /** The STARTUP vector is the trampoline's page number. */
  const StartupVector: Byte := 0x8000 / 0x1000
  const CandidateLimit: nat := 12
  const PollLimit: nat := 100

  datatype CpuInfo = CpuInfo(cpuId: Byte, apicId: Byte, online: bool, kernelStack: bv64)
  const Blank := CpuInfo(0, 0, false, 0)

  /** One interrupt requested from the local APIC: destination, vector, delivery mode. */
  datatype Ipi = Ipi(dest: Byte, vector: Byte, mode: bv32)

  type Environment = (Byte, nat, nat) -> set<nat>

  /** INIT with vector 0, then STARTUP at the trampoline page, twice. */
  function StartupSequence(a: Byte): seq<Ipi>
  {
    [Ipi(a, 0, Apic.IpiInit), Ipi(a, StartupVector, Apic.IpiStartup), Ipi(a, StartupVector, Apic.IpiStartup)]
  }

  /** Slot `slot` is marked by the environment before one of the first `polls` polls. */
  ghost predicate MarkedWithin(env: Environment, a: Byte, count: nat, slot: nat, polls: nat)
  {
    polls > 0 && (MarkedWithin(env, a, count, slot, polls - 1) || slot in env(a, count, polls - 1))
  }

  ghost predicate Responds(env: Environment, a: Byte, count: nat, slot: nat)
  {
    MarkedWithin(env, a, count, slot, PollLimit)
  }

  /** Marks only accumulate: a slot marked within some number of polls stays marked
      within any larger number. */
  lemma {:induction false} MarkedWithinGrows(env: Environment, a: Byte, count: nat, slot: nat, polls: nat, later: nat)
    requires polls <= later && MarkedWithin(env, a, count, slot, polls)
    ensures MarkedWithin(env, a, count, slot, later)
    decreases later
  {
    if polls < later {
      MarkedWithinGrows(env, a, count, slot, polls, later - 1);
    }
  }

  /** The outcome of the polls over the slots below `bound`, read against the table
      as it was when polling began: some slot there names the candidate and is, or
      becomes, online within the 100 polls. */
  ghost predicate PollSucceeds(info: seq<CpuInfo>, bound: nat, env: Environment, a: Byte, count: nat)
    requires bound <= |info|
  {
    exists s :: 0 <= s < bound && info[s].apicId == a && (info[s].online || Responds(env, a, count, s))
  }

  /** The candidate ids below `n`, in increasing order, without the bootstrap core's. */
  function CandidatesBelow(bsp: Byte, n: nat): seq<Byte>
    requires n <= 256
  {
    if n == 0 then [] else CandidatesBelow(bsp, n - 1) + (if n - 1 == bsp then [] else [n - 1])
  }

  /** Every id below `n` except the bootstrap core's, each once, in increasing order. */
  lemma {:induction false} CandidatesShape(bsp: Byte, n: nat)
    requires n <= 256
    ensures var r := CandidatesBelow(bsp, n);
      && |r| == (if bsp < n then n - 1 else n)
      && (forall i :: 0 <= i < |r| ==> r[i] < n && r[i] != bsp)
      && (forall i, j :: 0 <= i < j < |r| ==> r[i] < r[j])
      && (forall a: Byte :: a < n && a != bsp ==> a in r)
  {
    if n > 0 {
      CandidatesShape(bsp, n - 1);
    }
  }

  function Candidates(bsp: Byte): seq<Byte>
  {
    CandidatesBelow(bsp, CandidateLimit)
  }

  /** The interrupts sent while trying `cands` in order. */
  function IpiRounds(cands: seq<Byte>): (r: seq<Ipi>)
    ensures |r| == 3 * |cands|
  {
    if cands == [] then [] else IpiRounds(cands[..|cands| - 1]) + StartupSequence(cands[|cands| - 1])
  }

  /** The core count the bring-up is meant to reach: starting from `start` counted
      cores, each candidate is counted when it marks the slot just written for it
      (index = the count so far) within the 100 polls; trying stops at 16 cores. */
  ghost function Started(env: Environment, cands: seq<Byte>, start: nat): (c: nat)
    ensures start <= c <= start + |cands|
    ensures start <= MaxCpus ==> c <= MaxCpus
  {
    if cands == [] then start
    else
      var c := Started(env, cands[..|cands| - 1], start);
      var a := cands[|cands| - 1];
      if c < MaxCpus && Responds(env, a, c, c) then c + 1 else c
  }

  /** No core ever answers. */
  ghost function Silent(): Environment
  {
    (a: Byte, count: nat, poll: nat) => {}
  }

  /** Every started core marks the slot written for it, at once. */
  ghost function SelfMarking(): Environment
  {
    (a: Byte, count: nat, poll: nat) => {count}
  }

  lemma {:induction false} SilentNeverMarks(a: Byte, count: nat, slot: nat, polls: nat)
    ensures !MarkedWithin(Silent(), a, count, slot, polls)
    decreases polls
  {
    if polls > 0 {
      SilentNeverMarks(a, count, slot, polls - 1);
    }
  }

  /** When no core answers, the intended bring-up counts no candidate. */
  lemma {:induction false} SilentStartsNone(cands: seq<Byte>, start: nat)
    ensures Started(Silent(), cands, start) == start
    decreases |cands|
  {
    if cands != [] {
      SilentStartsNone(cands[..|cands| - 1], start);
      SilentNeverMarks(cands[|cands| - 1], start, start, PollLimit);
    }
  }

  /** With every core answering, each candidate is counted until the table is full. */
  lemma {:induction false} SelfMarkingStartsAll(cands: seq<Byte>, start: nat)
    requires start + |cands| <= MaxCpus
    ensures Started(SelfMarking(), cands, start) == start + |cands|
    decreases |cands|
  {
    if cands != [] {
      var c := Started(SelfMarking(), cands[..|cands| - 1], start);
      SelfMarkingStartsAll(cands[..|cands| - 1], start);
      assert MarkedWithin(SelfMarking(), cands[|cands| - 1], c, c, 1);
      MarkedWithinGrows(SelfMarking(), cands[|cands| - 1], c, c, 1, PollLimit);
    }
  }

  /** On a machine whose bootstrap core has APIC id 0 and whose eleven other cores
      all answer, the intended bring-up counts 12 cores. */
  lemma TwelveCoreMachine()
    ensures Started(SelfMarking(), Candidates(0), 1) == 12
  {
    CandidatesShape(0, CandidateLimit);
    SelfMarkingStartsAll(Candidates(0), 1);
  }

  /** The table right before the first candidate is polled during a fresh bring-up:
      slot 0 is the online bootstrap core, slot 1 was just written for candidate `a`. */
  function FirstProbeTable(bsp: Byte, a: Byte): seq<CpuInfo>
  {
    [CpuInfo(0, bsp, true, 0), CpuInfo(1, a, false, 0)] + seq(MaxCpus - 2, _ => Blank)
  }

  /** The as-written poll looks at the slots below the count, one short of the slot
      the candidate was written to: even when the candidate marks its slot at once,
      the wait fails, while a poll that includes that slot succeeds. */
  lemma PollMissesNewSlot(bsp: Byte, a: Byte)
    requires a != bsp
    ensures !PollSucceeds(FirstProbeTable(bsp, a), 1, SelfMarking(), a, 1)
    ensures PollSucceeds(FirstProbeTable(bsp, a), 2, SelfMarking(), a, 1)
  {
    var t := FirstProbeTable(bsp, a);
    assert MarkedWithin(SelfMarking(), a, 1, 1, 1);
    MarkedWithinGrows(SelfMarking(), a, 1, 1, 1, PollLimit);
    assert t[1].apicId == a;
  }

  class SmpManager {
    var cpuInfo: array<CpuInfo>
    var cpuCount: nat
    var smpEnabled: bool
    var ipis: seq<Ipi>

    ghost predicate Valid()
      reads this
    {
      cpuInfo.Length == MaxCpus && 1 <= cpuCount <= MaxCpus
    }

    constructor ()
      ensures Valid() && fresh(cpuInfo)
      ensures cpuCount == 1 && !smpEnabled && ipis == []
      ensures cpuInfo[0] == CpuInfo(BspCpuId, 0, false, 0)
      ensures forall s :: 0 <= s < MaxCpus ==> cpuInfo[s] == Blank
    {
      cpuInfo := new CpuInfo[MaxCpus](_ => Blank);
      cpuCount := 1;
      smpEnabled := false;
      ipis := [];
    }

    /** Ids of 16 and up are ignored; otherwise slot `cpuId` is rewritten, offline. */
    method InitCPU(cpuId: Byte, apicId: Byte)
      requires Valid()
      modifies cpuInfo
      ensures cpuId < MaxCpus ==> cpuInfo[..] == old(cpuInfo[..])[cpuId := CpuInfo(cpuId, apicId, false, 0)]
      ensures cpuId >= MaxCpus ==> cpuInfo[..] == old(cpuInfo[..])
    {
      if cpuId >= MaxCpus {
        return;
      }
      cpuInfo[cpuId] := CpuInfo(cpuId, apicId, false, 0);
    }

    method MarkCPUOnline(cpuId: Byte)
      requires Valid()
      modifies cpuInfo
      ensures cpuId < MaxCpus ==> cpuInfo[..] == old(cpuInfo[..])[cpuId := old(cpuInfo[cpuId]).(online := true)]
      ensures cpuId >= MaxCpus ==> cpuInfo[..] == old(cpuInfo[..])
    {
      if cpuId < MaxCpus {
        cpuInfo[cpuId] := cpuInfo[cpuId].(online := true);
      }
    }

    /** The environment's step: the cores that run during one delay mark the slots
        in `marks` online, as `MarkCPUOnline` does for each of them. */
    method EnvironmentMarks(marks: set<nat>)
      requires Valid()
      modifies cpuInfo
      ensures forall s :: 0 <= s < MaxCpus ==> cpuInfo[s] == old(cpuInfo[s]).(online := old(cpuInfo[s]).online || s in marks)
    {
      forall s | 0 <= s < cpuInfo.Length && s in marks {
        cpuInfo[s] := cpuInfo[s].(online := true);
      }
    }

    /** The 100 polls of `startAP`, each over the slots below `bound`, with the
        environment acting before each poll. */
    method WaitOnline(apicId: Byte, bound: nat, env: Environment) returns (ok: bool)
      requires Valid() && bound <= MaxCpus
      modifies cpuInfo
      ensures ok <==> PollSucceeds(old(cpuInfo[..]), bound, env, apicId, cpuCount)
      ensures forall s :: 0 <= s < MaxCpus ==>
        cpuInfo[s] == old(cpuInfo[s]).(online := cpuInfo[s].online) && (old(cpuInfo[s]).online ==> cpuInfo[s].online)
      ensures forall s :: 0 <= s < MaxCpus && cpuInfo[s].online ==> old(cpuInfo[s]).online || Responds(env, apicId, cpuCount, s)
      ensures !ok ==> forall s :: 0 <= s < MaxCpus ==> (cpuInfo[s].online <==> old(cpuInfo[s]).online || Responds(env, apicId, cpuCount, s))
      ensures ok ==> exists s :: 0 <= s < bound && cpuInfo[s].apicId == apicId && cpuInfo[s].online
    {
      ghost var start := cpuInfo[..];
      var i := 0;
      while i < PollLimit
        invariant 0 <= i <= PollLimit
        invariant forall s :: 0 <= s < MaxCpus ==>
          cpuInfo[s] == start[s].(online := start[s].online || MarkedWithin(env, apicId, cpuCount, s, i))
        invariant i > 0 ==> forall s :: 0 <= s < bound && start[s].apicId == apicId ==>
          !(start[s].online || MarkedWithin(env, apicId, cpuCount, s, i))
      {
        EnvironmentMarks(env(apicId, cpuCount, i));
        var s := 0;
        while s < bound
          invariant 0 <= s <= bound
          invariant forall t :: 0 <= t < s ==> !(cpuInfo[t].apicId == apicId && cpuInfo[t].online)
        {
          if cpuInfo[s].apicId == apicId && cpuInfo[s].online {
            ResponseWithinLimit(env, apicId, cpuCount, i + 1);
            return true;
          }
          s := s + 1;
        }
        i := i + 1;
      }
      return false;
    }

    /** `startAP` as written: the INIT-SIPI-SIPI sequence, then polls over the slots
        below the current count. */
    method StartAP(apicId: Byte, env: Environment) returns (ok: bool)
      requires Valid()
      modifies this`ipis, cpuInfo
      ensures ipis == old(ipis) + StartupSequence(apicId)
      ensures ok <==> PollSucceeds(old(cpuInfo[..]), cpuCount, env, apicId, cpuCount)
      ensures forall s :: 0 <= s < MaxCpus ==>
        cpuInfo[s] == old(cpuInfo[s]).(online := cpuInfo[s].online) && (old(cpuInfo[s]).online ==> cpuInfo[s].online)
      ensures forall s :: 0 <= s < MaxCpus && cpuInfo[s].online ==> old(cpuInfo[s]).online || Responds(env, apicId, cpuCount, s)
      ensures !ok ==> forall s :: 0 <= s < MaxCpus ==> (cpuInfo[s].online <==> old(cpuInfo[s]).online || Responds(env, apicId, cpuCount, s))
      ensures ok ==> exists s :: 0 <= s < cpuCount && cpuInfo[s].apicId == apicId && cpuInfo[s].online
    {
      ipis := ipis + [Ipi(apicId, 0, Apic.IpiInit)];
      ipis := ipis + [Ipi(apicId, StartupVector, Apic.IpiStartup)];
      ipis := ipis + [Ipi(apicId, StartupVector, Apic.IpiStartup)];
      ok := WaitOnline(apicId, cpuCount, env);
    }

    /** `startAP` with the poll widened to the slot just written for the candidate
        (index = the count), the slot the candidate is expected to mark. */
    method StartAPCorrected(apicId: Byte, env: Environment) returns (ok: bool)
      requires Valid()
      modifies this`ipis, cpuInfo
      ensures ipis == old(ipis) + StartupSequence(apicId)
      ensures ok <==> PollSucceeds(old(cpuInfo[..]), Bound(cpuCount), env, apicId, cpuCount)
      ensures forall s :: 0 <= s < MaxCpus ==>
        cpuInfo[s] == old(cpuInfo[s]).(online := cpuInfo[s].online) && (old(cpuInfo[s]).online ==> cpuInfo[s].online)
      ensures forall s :: 0 <= s < MaxCpus && cpuInfo[s].online ==> old(cpuInfo[s]).online || Responds(env, apicId, cpuCount, s)
      ensures !ok ==> forall s :: 0 <= s < MaxCpus ==> (cpuInfo[s].online <==> old(cpuInfo[s]).online || Responds(env, apicId, cpuCount, s))
      ensures ok ==> exists s :: 0 <= s < Bound(cpuCount) && cpuInfo[s].apicId == apicId && cpuInfo[s].online
    {
      ipis := ipis + [Ipi(apicId, 0, Apic.IpiInit)];
      ipis := ipis + [Ipi(apicId, StartupVector, Apic.IpiStartup)];
      ipis := ipis + [Ipi(apicId, StartupVector, Apic.IpiStartup)];
      ok := WaitOnline(apicId, Bound(cpuCount), env);
    }

    /** One round of the `init` loop as written: the candidate is written to the slot
        at index = the count, started with `StartAP`, and counted on success. Slots
        above that index keep everything but their online flags. */
    method ProbeCandidate(apicId: Byte, env: Environment) returns (ok: bool)
      requires Valid() && cpuCount < MaxCpus
      modifies this`cpuCount, this`ipis, cpuInfo
      ensures Valid()
      ensures ipis == old(ipis) + StartupSequence(apicId)
      ensures ok <==> PollSucceeds(old(cpuInfo[..]), old(cpuCount), env, apicId, old(cpuCount))
      ensures cpuCount == old(cpuCount) + (if ok then 1 else 0)
      ensures OnlineGrows(old(cpuInfo[..]), cpuInfo[..], old(cpuCount))
      ensures cpuInfo[old(cpuCount)].apicId == apicId && cpuInfo[old(cpuCount)].cpuId == old(cpuCount)
      ensures forall s :: old(cpuCount) < s < MaxCpus ==> cpuInfo[s] == old(cpuInfo[s]).(online := cpuInfo[s].online)
    {
      ghost var before := cpuInfo[..];
      InitCPU(cpuCount, apicId);
      ghost var probed := cpuInfo[..];
      PollSucceedsAgree(before, probed, cpuCount, env, apicId, cpuCount);
      ok := StartAP(apicId, env);
      if ok {
        cpuCount := cpuCount + 1;
      }
    }

    /** The same round with `StartAPCorrected`. When no counted slot already names the
        candidate, it is counted exactly when it marks the slot written for it, and
        that slot then holds it online. */
    method ProbeCandidateCorrected(apicId: Byte, env: Environment) returns (ok: bool)
      requires Valid() && cpuCount < MaxCpus
      modifies this`cpuCount, this`ipis, cpuInfo
      ensures Valid()
      ensures ipis == old(ipis) + StartupSequence(apicId)
      ensures cpuCount == old(cpuCount) + (if ok then 1 else 0)
      ensures OnlineGrows(old(cpuInfo[..]), cpuInfo[..], old(cpuCount))
      ensures cpuInfo[old(cpuCount)].apicId == apicId && cpuInfo[old(cpuCount)].cpuId == old(cpuCount)
      ensures forall s :: old(cpuCount) < s < MaxCpus ==> cpuInfo[s] == old(cpuInfo[s]).(online := cpuInfo[s].online)
      ensures (forall s :: 0 <= s < old(cpuCount) ==> old(cpuInfo[s]).apicId != apicId) ==>
        (ok <==> Responds(env, apicId, old(cpuCount), old(cpuCount))) && (ok ==> cpuInfo[old(cpuCount)].online)
    {
      ghost var c := cpuCount;
      InitCPU(cpuCount, apicId);
      ghost var probed := cpuInfo[..];
      ok := StartAPCorrected(apicId, env);
      if forall s :: 0 <= s < c ==> probed[s].apicId != apicId {
        CorrectedPollDecides(probed, c, env, apicId);
        if ok {
          var w :| 0 <= w < c + 1 && cpuInfo[w].apicId == apicId && cpuInfo[w].online;
          assert w == c;
        }
      }
      if ok {
        cpuCount := cpuCount + 1;
      }
    }

    /** The candidate loop of `init` as written: ids 0..11 in order, skipping the
        bootstrap core's, while fewer than 16 cores are counted. On a fresh manager no
        candidate is ever counted, whatever the other cores do. */
    method StartCandidates(bspApicId: Byte, env: Environment)
      requires Valid() && cpuInfo[0] == CpuInfo(BspCpuId, bspApicId, true, 0)
      modifies this`cpuCount, this`ipis, cpuInfo
      ensures Valid() && cpuInfo[0] == CpuInfo(BspCpuId, bspApicId, true, 0)
      ensures old(cpuCount) <= cpuCount
      ensures old(cpuCount) == 1 ==> cpuCount == 1 && ipis == old(ipis) + IpiRounds(Candidates(bspApicId))
    {
      ghost var fresh1 := cpuCount == 1;
      var apicId: Byte := 0;
      while apicId < CandidateLimit && cpuCount < MaxCpus
        invariant 0 <= apicId <= CandidateLimit
        invariant Valid() && cpuInfo[0] == CpuInfo(BspCpuId, bspApicId, true, 0)
        invariant old(cpuCount) <= cpuCount
        invariant fresh1 ==> cpuCount == 1
        invariant fresh1 ==> ipis == old(ipis) + IpiRounds(CandidatesBelow(bspApicId, apicId))
      {
        CandidateStep(bspApicId, apicId, env, old(ipis));
        apicId := apicId + 1;
      }
    }

    /** One pass of the loop as written: the bootstrap core's id is skipped, any other
        candidate is probed. From a single counted core, the count stays 1. */
    method CandidateStep(bspApicId: Byte, apicId: Byte, env: Environment, ghost base: seq<Ipi>)
      requires Valid() && cpuInfo[0] == CpuInfo(BspCpuId, bspApicId, true, 0)
      requires apicId < CandidateLimit && cpuCount < MaxCpus
      modifies this`cpuCount, this`ipis, cpuInfo
      ensures Valid() && cpuInfo[0] == CpuInfo(BspCpuId, bspApicId, true, 0)
      ensures old(cpuCount) <= cpuCount
      ensures old(cpuCount) == 1 && old(ipis) == base + IpiRounds(CandidatesBelow(bspApicId, apicId)) ==>
        cpuCount == 1 && ipis == base + IpiRounds(CandidatesBelow(bspApicId, apicId + 1))
    {
      RoundsExtend(bspApicId, apicId);
      if apicId != bspApicId {
        ghost var before := cpuInfo[..];
        var ok := ProbeCandidate(apicId, env);
        OnlineKept(before, cpuInfo[..], old(cpuCount), 0);
        if old(cpuCount) == 1 {
          AsWrittenPollFails(before, env, apicId, bspApicId);
        }
      }
    }

    /** The candidate loop with `ProbeCandidateCorrected`: on a fresh manager the count
        reaches the intended value `Started` and every counted slot is online. */
    method StartCandidatesCorrected(bspApicId: Byte, env: Environment)
      requires Valid() && cpuInfo[0] == CpuInfo(BspCpuId, bspApicId, true, 0)
      modifies this`cpuCount, this`ipis, cpuInfo
      ensures Valid() && cpuInfo[0] == CpuInfo(BspCpuId, bspApicId, true, 0)
      ensures old(cpuCount) <= cpuCount
      ensures old(cpuCount) == 1 ==>
        cpuCount == Started(env, Candidates(bspApicId), 1) &&
        ipis == old(ipis) + IpiRounds(Candidates(bspApicId)) &&
        forall s :: 0 <= s < cpuCount ==> cpuInfo[s].online && cpuInfo[s].cpuId == s
    {
      ghost var fresh1 := cpuCount == 1;
      var apicId: Byte := 0;
      while apicId < CandidateLimit && cpuCount < MaxCpus
        invariant 0 <= apicId <= CandidateLimit
        invariant Valid() && cpuInfo[0] == CpuInfo(BspCpuId, bspApicId, true, 0)
        invariant old(cpuCount) <= cpuCount
        invariant fresh1 ==> cpuCount == Started(env, CandidatesBelow(bspApicId, apicId), 1) <= apicId + 1
        invariant fresh1 ==> ipis == old(ipis) + IpiRounds(CandidatesBelow(bspApicId, apicId))
        invariant fresh1 ==> Counted(cpuInfo[..], cpuCount, apicId, bspApicId)
      {
        CandidateStepCorrected(bspApicId, apicId, env, old(ipis));
        apicId := apicId + 1;
      }
      if fresh1 {
        CountedOnline(cpuInfo[..], cpuCount, apicId, bspApicId);
      }
    }

    /** One pass of the corrected loop. When the table counts exactly the candidates
        below `apicId` that started, it does so for the candidates below `apicId + 1`. */
    method CandidateStepCorrected(bspApicId: Byte, apicId: Byte, env: Environment, ghost base: seq<Ipi>)
      requires Valid() && cpuInfo[0] == CpuInfo(BspCpuId, bspApicId, true, 0)
      requires apicId < CandidateLimit && cpuCount < MaxCpus
      modifies this`cpuCount, this`ipis, cpuInfo
      ensures Valid() && cpuInfo[0] == CpuInfo(BspCpuId, bspApicId, true, 0)
      ensures old(cpuCount) <= cpuCount
      ensures old(cpuCount) == Started(env, CandidatesBelow(bspApicId, apicId), 1) <= apicId + 1 &&
              old(ipis) == base + IpiRounds(CandidatesBelow(bspApicId, apicId)) &&
              Counted(old(cpuInfo[..]), old(cpuCount), apicId, bspApicId) ==>
        cpuCount == Started(env, CandidatesBelow(bspApicId, apicId + 1), 1) <= apicId + 2 &&
        ipis == base + IpiRounds(CandidatesBelow(bspApicId, apicId + 1)) &&
        Counted(cpuInfo[..], cpuCount, apicId + 1, bspApicId)
    {
      ghost var holds := cpuCount == Started(env, CandidatesBelow(bspApicId, apicId), 1) <= apicId + 1 &&
        ipis == base + IpiRounds(CandidatesBelow(bspApicId, apicId)) &&
        Counted(cpuInfo[..], cpuCount, apicId, bspApicId);
      if apicId != bspApicId {
        ghost var c := cpuCount;
        ghost var before := cpuInfo[..];
        ghost var sent := ipis;
        var ok := ProbeCandidateCorrected(apicId, env);
        OnlineKept(before, cpuInfo[..], c, 0);
        if holds {
          CorrectedRound(env, bspApicId, apicId, c, ok, cpuCount, before, cpuInfo[..], base, sent, ipis);
        }
      } else if holds {
        CorrectedSkip(env, bspApicId, cpuCount, cpuInfo[..], base, ipis);
      }
    }

    /** `init` as written. Without an APIC only slot 0 goes online; with one, slot 0
        becomes the online bootstrap core and the candidates are tried; the multicore
        flag is set exactly when more than one core is counted. */
    method Init(apicAvailable: bool, bspApicId: Byte, env: Environment)
      requires Valid()
      modifies this, cpuInfo
      ensures Valid() && cpuInfo == old(cpuInfo)
      ensures smpEnabled == (cpuCount > 1)
      ensures !apicAvailable ==> (cpuCount == 1 && ipis == old(ipis) &&
                                  cpuInfo[..] == old(cpuInfo[..])[0 := CpuInfo(BspCpuId, 0, true, 0)])
      ensures apicAvailable ==> cpuInfo[0] == CpuInfo(BspCpuId, bspApicId, true, 0) && old(cpuCount) <= cpuCount
      ensures apicAvailable && old(cpuCount) == 1 ==>
        cpuCount == 1 && !smpEnabled && ipis == old(ipis) + IpiRounds(Candidates(bspApicId))
    {
      if !apicAvailable {
        InitCPU(BspCpuId, 0);
        cpuInfo[BspCpuId] := cpuInfo[BspCpuId].(online := true);
        cpuCount := 1;
        smpEnabled := false;
        return;
      }
      InitCPU(BspCpuId, bspApicId);
      cpuInfo[BspCpuId] := cpuInfo[BspCpuId].(online := true);
      StartCandidates(bspApicId, env);
      smpEnabled := cpuCount > 1;
    }

    /** `init` with the corrected candidate loop. */
    method InitCorrected(apicAvailable: bool, bspApicId: Byte, env: Environment)
      requires Valid()
      modifies this, cpuInfo
      ensures Valid() && cpuInfo == old(cpuInfo)
      ensures smpEnabled == (cpuCount > 1)
      ensures !apicAvailable ==> (cpuCount == 1 && ipis == old(ipis) &&
                                  cpuInfo[..] == old(cpuInfo[..])[0 := CpuInfo(BspCpuId, 0, true, 0)])
      ensures apicAvailable ==> cpuInfo[0] == CpuInfo(BspCpuId, bspApicId, true, 0) && old(cpuCount) <= cpuCount
      ensures apicAvailable && old(cpuCount) == 1 ==>
        cpuCount == Started(env, Candidates(bspApicId), 1) &&
        ipis == old(ipis) + IpiRounds(Candidates(bspApicId)) &&
        forall s :: 0 <= s < cpuCount ==> cpuInfo[s].online && cpuInfo[s].cpuId == s
    {
      if !apicAvailable {
        InitCPU(BspCpuId, 0);
        cpuInfo[BspCpuId] := cpuInfo[BspCpuId].(online := true);
        cpuCount := 1;
        smpEnabled := false;
        return;
      }
      InitCPU(BspCpuId, bspApicId);
      cpuInfo[BspCpuId] := cpuInfo[BspCpuId].(online := true);
      StartCandidatesCorrected(bspApicId, env);
      smpEnabled := cpuCount > 1;
    }

    /** The calling core's logical id: 0 in single-core mode, else the id of the first
        counted slot with the caller's APIC id, falling back to 0. */
    method GetCurrentCPU(callerApicId: Byte) returns (id: Byte)
      requires Valid()
      ensures !smpEnabled ==> id == BspCpuId
      ensures smpEnabled ==> id == match FirstMatch(cpuInfo[..], cpuCount, callerApicId)
        case Some(s) => cpuInfo[s].cpuId
        case None => BspCpuId
    {
      if !smpEnabled {
        return BspCpuId;
      }
      var i := 0;
      while i < cpuCount
        invariant 0 <= i <= cpuCount
        invariant FirstMatch(cpuInfo[..], cpuCount, callerApicId) == FirstMatchFrom(cpuInfo[..], i, cpuCount, callerApicId)
      {
        if cpuInfo[i].apicId == callerApicId {
          return cpuInfo[i].cpuId;
        }
        i := i + 1;
      }
      return BspCpuId;
    }

    method GetCPUCount() returns (n: nat)
      ensures n == cpuCount
    {
      return cpuCount;
    }

    method IsEnabled() returns (enabled: bool)
      ensures enabled == smpEnabled
    {
      return smpEnabled;
    }

    /** The record of core `cpuId`, or `None` (a null pointer) for ids of 16 and up. */
    method GetCPUInfo(cpuId: Byte) returns (r: Option<CpuInfo>)
      requires Valid()
      ensures r.Some? <==> cpuId < MaxCpus
      ensures r.Some? ==> r.value == cpuInfo[cpuId]
    {
      if cpuId >= MaxCpus {
        return None;
      }
      return Some(cpuInfo[cpuId]);
    }
  }

  /** The corrected poll covers the slot at index `count`, but never slot 16. */
  function Bound(count: nat): (b: nat)
    ensures b <= MaxCpus
    ensures count < MaxCpus ==> b == count + 1
  {
    if count < MaxCpus then count + 1 else MaxCpus
  }

  /** The first slot below `count`, from `from` on, naming APIC id `a`. */
  function FirstMatchFrom(info: seq<CpuInfo>, from: nat, count: nat, a: Byte): (r: Option<nat>)
    requires count <= |info|
    ensures r.Some? ==> (from <= r.value < count && info[r.value].apicId == a &&
                         forall t :: from <= t < r.value ==> info[t].apicId != a)
    ensures r.None? ==> forall t :: from <= t < count ==> info[t].apicId != a
    decreases count - from
  {
    if from >= count then None
    else if info[from].apicId == a then Some(from)
    else FirstMatchFrom(info, from + 1, count, a)
  }

  function FirstMatch(info: seq<CpuInfo>, count: nat, a: Byte): Option<nat>
    requires count <= |info|
  {
    FirstMatchFrom(info, 0, count, a)
  }

  lemma ResponseWithinLimit(env: Environment, a: Byte, count: nat, polls: nat)
    requires polls <= PollLimit
    ensures forall s :: MarkedWithin(env, a, count, s, polls) ==> Responds(env, a, count, s)
  {
    forall s | MarkedWithin(env, a, count, s, polls)
      ensures Responds(env, a, count, s)
    {
      MarkedWithinGrows(env, a, count, s, polls, PollLimit);
    }
  }

  lemma RoundsExtend(bsp: Byte, n: nat)
    requires n < 256
    ensures n == bsp ==> IpiRounds(CandidatesBelow(bsp, n + 1)) == IpiRounds(CandidatesBelow(bsp, n))
    ensures n != bsp ==> IpiRounds(CandidatesBelow(bsp, n + 1)) == IpiRounds(CandidatesBelow(bsp, n)) + StartupSequence(n)
  {
    var xs := CandidatesBelow(bsp, n);
    if n != bsp {
      assert (xs + [n])[..|xs|] == xs;
    } else {
      assert xs + [] == xs;
    }
  }

  lemma StartedSnoc(env: Environment, xs: seq<Byte>, a: Byte, start: nat)
    ensures Started(env, xs + [a], start) ==
      var c := Started(env, xs, start);
      if c < MaxCpus && Responds(env, a, c, c) then c + 1 else c
  {
    assert (xs + [a])[..|xs|] == xs;
  }

  lemma StartedExtend(env: Environment, bsp: Byte, n: nat)
    requires n < 256
    ensures n == bsp ==> Started(env, CandidatesBelow(bsp, n + 1), 1) == Started(env, CandidatesBelow(bsp, n), 1)
    ensures n != bsp ==> (Started(env, CandidatesBelow(bsp, n + 1), 1) ==
                          var c := Started(env, CandidatesBelow(bsp, n), 1);
                          if c < MaxCpus && Responds(env, n, c, c) then c + 1 else c)
  {
    var xs := CandidatesBelow(bsp, n);
    if n != bsp {
      StartedSnoc(env, xs, n, 1);
    } else {
      assert xs + [] == xs;
    }
  }

  /** During the as-written bring-up on a fresh manager only slot 0, the bootstrap
      core's, is polled, so no candidate is ever seen online. */
  lemma AsWrittenPollFails(info: seq<CpuInfo>, env: Environment, a: Byte, bsp: Byte)
    requires |info| == MaxCpus && info[0].apicId == bsp && a != bsp
    ensures !PollSucceeds(info, 1, env, a, 1)
  {
  }

  /** A slot below the bound that was online is kept as it was. */
  lemma OnlineKept(before: seq<CpuInfo>, after: seq<CpuInfo>, bound: nat, s: nat)
    requires OnlineGrows(before, after, bound) && s < bound && before[s].online
    ensures after[s] == before[s]
  {
  }

  /** Below `bound`, the slots of `after` are those of `before` with at most more
      `online` flags set. */
  ghost predicate OnlineGrows(before: seq<CpuInfo>, after: seq<CpuInfo>, bound: nat)
  {
    bound <= |before| && bound <= |after| &&
    forall s :: 0 <= s < bound ==>
      after[s] == before[s].(online := after[s].online) && (before[s].online ==> after[s].online)
  }

  /** The table during the corrected bring-up, before candidate `next` is tried:
      slot 0 is the online bootstrap core, and slots 1 up to the count hold, online
      and in order, cores whose APIC ids are below `next`. */
  ghost predicate Counted(info: seq<CpuInfo>, count: nat, next: nat, bsp: Byte)
  {
    |info| == MaxCpus && 1 <= count <= MaxCpus && info[0] == CpuInfo(BspCpuId, bsp, true, 0) &&
    forall s :: 1 <= s < count ==> info[s].apicId < next && info[s].online && info[s].cpuId == s
  }

  lemma CountedExcludes(info: seq<CpuInfo>, count: nat, a: Byte, bsp: Byte)
    requires Counted(info, count, a, bsp) && a != bsp
    ensures forall s :: 0 <= s < count ==> info[s].apicId != a
  {
  }

  lemma CountedOnline(info: seq<CpuInfo>, count: nat, next: nat, bsp: Byte)
    requires Counted(info, count, next, bsp)
    ensures forall s :: 0 <= s < count ==> info[s].online && info[s].cpuId == s
  {
  }

  /** One round of the corrected loop keeps `Counted`: earlier slots only gain online
      flags, and a counted candidate sits online in the slot written for it. */
  lemma CountedStep(before: seq<CpuInfo>, after: seq<CpuInfo>, c: nat, a: Byte, bsp: Byte, ok: bool)
    requires Counted(before, c, a, bsp) && a != bsp && c < MaxCpus && |after| == MaxCpus
    requires OnlineGrows(before, after, c)
    requires after[c].apicId == a && after[c].cpuId == c && (ok ==> after[c].online)
    ensures Counted(after, c + (if ok then 1 else 0), a + 1, bsp)
  {
  }

  /** One round of the corrected loop for candidate `a`, from count `c` to `c2`,
      keeps the loop's three facts: the count is the intended one, the interrupts
      sent are the rounds so far, and the table is `Counted`. */
  lemma CorrectedRound(env: Environment, bsp: Byte, a: Byte, c: nat, ok: bool, c2: nat,
                       before: seq<CpuInfo>, after: seq<CpuInfo>, base: seq<Ipi>, sent: seq<Ipi>, sent2: seq<Ipi>)
    requires a < CandidateLimit && a != bsp && c < MaxCpus
    requires c == Started(env, CandidatesBelow(bsp, a), 1) <= a + 1
    requires sent == base + IpiRounds(CandidatesBelow(bsp, a))
    requires Counted(before, c, a, bsp)
    requires sent2 == sent + StartupSequence(a)
    requires c2 == c + (if ok then 1 else 0)
    requires OnlineGrows(before, after, c) && |after| == MaxCpus
    requires after[c].apicId == a && after[c].cpuId == c
    requires (forall s :: 0 <= s < c ==> before[s].apicId != a) ==>
      (ok <==> Responds(env, a, c, c)) && (ok ==> after[c].online)
    ensures c2 == Started(env, CandidatesBelow(bsp, a + 1), 1) <= a + 2
    ensures sent2 == base + IpiRounds(CandidatesBelow(bsp, a + 1))
    ensures Counted(after, c2, a + 1, bsp)
  {
    SentRounds(bsp, a, base, sent, sent2);
    CountedExcludes(before, c, a, bsp);
    CountRound(env, bsp, a, c, ok, c2);
    CountedStep(before, after, c, a, bsp, ok);
  }

  lemma SentRounds(bsp: Byte, a: Byte, base: seq<Ipi>, sent: seq<Ipi>, sent2: seq<Ipi>)
    requires a < CandidateLimit && a != bsp
    requires sent == base + IpiRounds(CandidatesBelow(bsp, a))
    requires sent2 == sent + StartupSequence(a)
    ensures sent2 == base + IpiRounds(CandidatesBelow(bsp, a + 1))
  {
    RoundsExtend(bsp, a);
    assert sent2 == base + (IpiRounds(CandidatesBelow(bsp, a)) + StartupSequence(a));
  }

  lemma CountRound(env: Environment, bsp: Byte, a: Byte, c: nat, ok: bool, c2: nat)
    requires a < CandidateLimit && a != bsp && c < MaxCpus
    requires c == Started(env, CandidatesBelow(bsp, a), 1) <= a + 1
    requires ok <==> Responds(env, a, c, c)
    requires c2 == c + (if ok then 1 else 0)
    ensures c2 == Started(env, CandidatesBelow(bsp, a + 1), 1) <= a + 2
  {
    StartedExtend(env, bsp, a);
  }

  /** Skipping the bootstrap core's own id keeps the same three facts. */
  lemma CorrectedSkip(env: Environment, bsp: Byte, c: nat, info: seq<CpuInfo>, base: seq<Ipi>, sent: seq<Ipi>)
    requires bsp < CandidateLimit
    requires c == Started(env, CandidatesBelow(bsp, bsp), 1) <= bsp + 1
    requires sent == base + IpiRounds(CandidatesBelow(bsp, bsp))
    requires Counted(info, c, bsp, bsp)
    ensures c == Started(env, CandidatesBelow(bsp, bsp + 1), 1) <= bsp + 2
    ensures sent == base + IpiRounds(CandidatesBelow(bsp, bsp + 1))
    ensures Counted(info, c, bsp + 1, bsp)
  {
    RoundsExtend(bsp, bsp);
    StartedExtend(env, bsp, bsp);
  }

  /** When no slot below the count names the candidate, the corrected poll succeeds
      exactly when the candidate marks the slot just written for it. */
  lemma CorrectedPollDecides(info: seq<CpuInfo>, c: nat, env: Environment, a: Byte)
    requires |info| == MaxCpus && c < MaxCpus
    requires forall s :: 0 <= s < c ==> info[s].apicId != a
    requires info[c] == CpuInfo(c, a, false, 0)
    ensures PollSucceeds(info, Bound(c), env, a, c) <==> Responds(env, a, c, c)
  {
    if PollSucceeds(info, Bound(c), env, a, c) {
      var s :| 0 <= s < c + 1 && info[s].apicId == a && (info[s].online || Responds(env, a, c, s));
      assert s == c;
    }
  }

  /** The poll only looks at the slots below its bound. */
  lemma PollSucceedsAgree(x: seq<CpuInfo>, y: seq<CpuInfo>, bound: nat, env: Environment, a: Byte, count: nat)
    requires bound <= |x| && bound <= |y|
    requires forall s :: 0 <= s < bound ==> x[s] == y[s]
    ensures PollSucceeds(x, bound, env, a, count) <==> PollSucceeds(y, bound, env, a, count)
  {
  }
}
