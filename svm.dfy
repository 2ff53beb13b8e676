/**
 * The AMD SVM part of hardware enablement, arch/x86/kvm/svm/vac.c: turning
 * SVM on and off on one CPU, setting up that CPU's ASID range and host save
 * area, merging the OS-visible-workaround (OSVW) erratum bits reported by
 * every CPU into one worst-case view, and the workaround for erratum 383.
 */
module Svm {
  import opened Kernel
  import opened Msr

  // MSR numbers and register bits, as in the kernel's msr-index.h.
  const MSR_EFER: u32 := 0xc000_0080
  const EFER_SVME: bv64 := 1 << 12
  const MSR_VM_HSAVE_PA: u32 := 0xc001_0117
  const MSR_AMD64_OSVW_ID_LENGTH: u32 := 0xc001_0140
  const MSR_AMD64_OSVW_STATUS: u32 := 0xc001_0141
  const MSR_AMD64_DC_CFG: u32 := 0xc001_1022
  const MSR_IA32_MC0_STATUS: u32 := 0x401
  const MSR_IA32_MCG_STATUS: u32 := 0x17a

  /** MSR_IA32_MCx_STATUS(x): the status register of machine-check bank x. */
  function McxStatus(x: nat): u32
    requires 0x401 + 4 * x < 0x1_0000_0000
  {
    0x401 + 4 * x
  }

  /** Number of machine-check banks is_erratum_383 clears. */
  const MC_BANKS_CLEARED: nat := 6

  /** The DC_CFG bit svm_init_erratum_383 sets. */
  const DC_CFG_ERRATUM_383: bv64 := 1 << 47

  /** Bit 2 of MCG_STATUS (machine check in progress), cleared once the
      erratum has been handled. */
  const MCG_STATUS_MCIP: bv64 := 1 << 2

  /** `x` with the bits of `bits` set. */
  function SetBits(x: bv64, bits: bv64): bv64
  {
    x | bits
  }

  /** `x` with the bits of `bits` cleared. */
  function ClearBits(x: bv64, bits: bv64): bv64
  {
    x & !bits
  }

  /** Some bit of `bits` is set in `x`. */
  predicate HasBits(x: bv64, bits: bv64)
  {
    x & bits != 0
  }

  /** No bit of `x` lies outside `mask`. */
  predicate WithinMask(x: bv64, mask: bv64)
  {
    x & !mask == 0
  }

  lemma SetBitsHas(x: bv64, bits: bv64)
    requires bits != 0
    ensures HasBits(SetBits(x, bits), bits)
  {
  }

  lemma ClearBitsHasNot(x: bv64, bits: bv64)
    ensures !HasBits(ClearBits(x, bits), bits)
  {
  }

  /** A 64-bit register value read as an unsigned length. */
  function LengthOf(v: bv64): nat
  {
    v as nat
  }

  /** Bit 62 of MC0_STATUS, which may or may not be set for this erratum. */
  const MC0_STATUS_BIT_62: bv64 := 1 << 62

  /** The MC0_STATUS value erratum 383 leaves, bit 62 aside. */
  const ERRATUM_383_SIGNATURE: bv64 := 0xb600_0000_0001_0015

  /** The test of is_erratum_383 on the MC0_STATUS value. */
  predicate IsErratum383Status(value: bv64)
  {
    value & !MC0_STATUS_BIT_62 == ERRATUM_383_SIGNATURE
  }

  /** The test accepts exactly the signature, with bit 62 clear or set. */
  lemma Erratum383StatusValues(value: bv64)
    ensures IsErratum383Status(value)
            <==> value == ERRATUM_383_SIGNATURE || value == ERRATUM_383_SIGNATURE | MC0_STATUS_BIT_62
  {
  }

  /** The number of OSVW erratum bits known when the code was written. */
  const OSVW_LEN_INITIAL: nat := 4

  /** Bit `k` alone: `1ULL << k`, built one shift at a time. */
  function BitAt(k: nat): bv64
    requires k < 64
  {
    if k == 0 then 1 else BitAt(k - 1) << 1
  }

  /** The `n` lowest bits set, the mask `(1ULL << n) - 1`. */
  function LowMask(n: nat): bv64
    requires n <= 64
  {
    if n == 0 then 0 else LowMask(n - 1) | BitAt(n - 1)
  }

  lemma PowerOfTwoStep(x: bv64)
    requires x & (x - 1) == 0
    ensures (x << 1) & ((x << 1) - 1) == 0
    ensures (x - 1) | x == (x << 1) - 1
  {
  }

  /** The mask really is `(1ULL << n) - 1` for every length the C shift is
      defined on. */
  lemma {:induction false} LowMaskIsShiftMinusOne(n: nat)
    requires n < 64
    ensures LowMask(n) == BitAt(n) - 1
    ensures BitAt(n) & (BitAt(n) - 1) == 0
  {
    if n > 0 {
      LowMaskIsShiftMinusOne(n - 1);
      PowerOfTwoStep(BitAt(n - 1));
    }
  }

  lemma SubsetGrows(a: bv64, b: bv64, c: bv64)
    requires WithinMask(a, b)
    ensures WithinMask(a, b | c)
  {
  }

  /** A shorter length has fewer low bits. */
  lemma {:induction false} LowMaskMonotone(m: nat, n: nat)
    requires m <= n <= 64
    ensures WithinMask(LowMask(m), LowMask(n))
    decreases n
  {
    if m < n {
      LowMaskMonotone(m, n - 1);
      SubsetGrows(LowMask(m), LowMask(n - 1), BitAt(n - 1));
    }
  }

  /** The OSVW length after one CPU reports `reportedLen`: the shorter one. */
  function MergedLen(len: nat, reportedLen: nat): (n: nat)
    ensures n <= len && n <= reportedLen
    ensures n == len || n == reportedLen
  {
    if reportedLen < len then reportedLen else len
  }

  /**
   * The OSVW status after one CPU reports `reportedStatus`, cut to the
   * bits of `mask`: every bit of the mask that either side has is kept
   * (the worst case), no bit is invented, and no bit outside the mask
   * survives.
   */
  function MergedStatus(status: bv64, reportedStatus: bv64, mask: bv64): (s: bv64)
    ensures WithinMask((status | reportedStatus) & mask, s)
    ensures WithinMask(s, status | reportedStatus)
    ensures WithinMask(s, mask)
  {
    (status | reportedStatus) & mask
  }

  /** Merging under a mask and then under a narrower one is merging both
      reports at once under the narrower one. */
  lemma MergeThrough(v: bv64, s1: bv64, s2: bv64, ma: bv64, mx: bv64)
    requires WithinMask(mx, ma)
    ensures MergedStatus(MergedStatus(v, s1, ma), s2, mx) == (v | s1 | s2) & mx
  {
  }

  lemma MergeOrder(v: bv64, s1: bv64, s2: bv64, ma: bv64, mb: bv64, mx: bv64)
    requires WithinMask(mx, ma) && WithinMask(mx, mb)
    ensures MergedStatus(MergedStatus(v, s1, ma), s2, mx) == MergedStatus(MergedStatus(v, s2, mb), s1, mx)
  {
    MergeThrough(v, s1, s2, ma, mx);
    MergeThrough(v, s2, s1, mb, mx);
  }

  /** The merged OSVW view does not depend on the order in which two CPUs
      report. */
  lemma OsvwMergeCommutes(len: nat, status: bv64, l1: nat, s1: bv64, l2: nat, s2: bv64)
    requires len <= 64
    ensures MergedLen(MergedLen(len, l1), l2) == MergedLen(MergedLen(len, l2), l1)
    ensures MergedStatus(MergedStatus(status, s1, LowMask(MergedLen(len, l1))), s2,
                         LowMask(MergedLen(MergedLen(len, l1), l2)))
         == MergedStatus(MergedStatus(status, s2, LowMask(MergedLen(len, l2))), s1,
                         LowMask(MergedLen(MergedLen(len, l2), l1)))
  {
    var m1 := MergedLen(len, l1);
    var m2 := MergedLen(len, l2);
    var m := MergedLen(m1, l2);
    LowMaskMonotone(m, m1);
    LowMaskMonotone(m, m2);
    MergeOrder(status, s1, s2, LowMask(m1), LowMask(m2), LowMask(m));
  }

  /** A CPU that reports the same thing twice changes nothing the second
      time. */
  lemma OsvwMergeIdempotent(len: nat, status: bv64, l: nat, s: bv64)
    requires len <= 64
    ensures MergedLen(MergedLen(len, l), l) == MergedLen(len, l)
    ensures var n := MergedLen(len, l);
            MergedStatus(MergedStatus(status, s, LowMask(n)), s, LowMask(n)) == MergedStatus(status, s, LowMask(n))
  {
  }

  /** The per-CPU data the enable and disable paths use (struct svm_cpu_data). */
  datatype SvmCpuData = SvmCpuData(
    asidGeneration: bv64,
    maxAsid: bv32,
    nextAsid: bv32,
    minAsid: bv32,
    saveArea: Ptr,
    saveAreaPa: bv64,
    currentVmcb: Ptr,
    sevVmcbs: Ptr,
    tssDesc: Ptr)

  /** The structure after memset(sd, 0, ...). */
  const ZeroCpuData := SvmCpuData(0, 0, 0, 0, NULL, 0, NULL, NULL, NULL)

  /** u32 arithmetic wraps: one less, then one more, is the same value. */
  lemma AsidWrap(n: bv32)
    ensures (n - 1) + 1 == n
  {
  }

  /**
   * The per-CPU data svm_hardware_enable leaves behind: ASID generation 1,
   * the cpuid ASID count as max_asid + 1 and as next_asid (so the first VM
   * run on the CPU starts a new generation), min_asid one past the SEV
   * ASIDs, the host save area and the TSS descriptor; no VMCB is current.
   */
  function EnabledCpuData(cpuidEbx: bv32, maxSevAsid: bv32, savePage: Ptr, savePagePa: bv64, tssDesc: Ptr): (d: SvmCpuData)
    ensures d.asidGeneration == 1
    ensures d.nextAsid == cpuidEbx && d.maxAsid + 1 == d.nextAsid
    ensures d.minAsid == maxSevAsid + 1
    ensures d.saveArea == savePage && d.saveAreaPa == savePagePa && d.tssDesc == tssDesc
    ensures d.currentVmcb == NULL && d.sevVmcbs == NULL
  {
    AsidWrap(cpuidEbx);
    SvmCpuData(1, cpuidEbx - 1, cpuidEbx, maxSevAsid + 1, savePage, savePagePa, NULL, NULL, tssDesc)
  }

  /** Calls into code outside this model, in the order they are made. */
  datatype ExtCall = AmdPmuEnableVirt | AmdPmuDisableVirt | FreePage(page: Ptr) | FlushTlbAll

  /** The DC_CFG write svm_init_erratum_383 makes on registers `regs`. */
  function Erratum383Enable(hasTlbMmatchBug: bool, regs: map<u32, bv64>): seq<MsrWrite>
  {
    if hasTlbMmatchBug && MSR_AMD64_DC_CFG in regs
    then [MsrWrite(MSR_AMD64_DC_CFG, SetBits(regs[MSR_AMD64_DC_CFG], DC_CFG_ERRATUM_383))]
    else []
  }

  /** The MSR writes svm_hardware_enable makes on registers `regs` once
      SVM is known to be off. */
  function EnableWrites(regs: map<u32, bv64>, savePagePa: bv64, hasTlbMmatchBug: bool): seq<MsrWrite>
  {
    SvmOnWrites(Value(regs, MSR_EFER), savePagePa) + Erratum383Enable(hasTlbMmatchBug, regs)
  }

  /** The writes turning SVM on: EFER with SVME added to the value `efer`
      read from it, then the host save area address. */
  function SvmOnWrites(efer: bv64, savePa: bv64): seq<MsrWrite>
  {
    [MsrWrite(MSR_EFER, SetBits(efer, EFER_SVME)), MsrWrite(MSR_VM_HSAVE_PA, savePa)]
  }

  /** The writes clearing the first `n` machine-check bank status registers. */
  function McStatusClears(n: nat): (ws: seq<MsrWrite>)
    requires n <= MC_BANKS_CLEARED
    ensures |ws| == n
    ensures forall i :: 0 <= i < n ==> ws[i] == MsrWrite(McxStatus(i), 0)
  {
    if n == 0 then [] else McStatusClears(n - 1) + [MsrWrite(McxStatus(n - 1), 0)]
  }

  /** The MCG_STATUS write is_erratum_383 makes on registers `regs`. */
  function McgStatusClear(regs: map<u32, bv64>): seq<MsrWrite>
  {
    if MSR_IA32_MCG_STATUS in regs
    then [MsrWrite(MSR_IA32_MCG_STATUS, ClearBits(regs[MSR_IA32_MCG_STATUS], MCG_STATUS_MCIP))]
    else []
  }

  /** The writes cpu_svm_disable makes on registers `regs`. */
  function CpuSvmDisableWrites(regs: map<u32, bv64>): seq<MsrWrite>
  {
    var efer := Value(regs, MSR_EFER);
    [MsrWrite(MSR_VM_HSAVE_PA, 0)]
      + if HasBits(efer, EFER_SVME) then [MsrWrite(MSR_EFER, ClearBits(efer, EFER_SVME))] else []
  }

  /**
   * cpu_svm_disable: forget the host save area, then clear EFER.SVME if it
   * is set. Afterwards SVM is off unless EFER rejects writes.
   */
  method CpuSvmDisable(hw: MsrBank)
    modifies hw
    ensures hw.Wrote(CpuSvmDisableWrites(old(hw.regs)))
    ensures MSR_EFER !in hw.writeFaults ==> !HasBits(hw.Read(MSR_EFER), EFER_SVME)
    ensures MSR_VM_HSAVE_PA in hw.regs && MSR_VM_HSAVE_PA !in hw.writeFaults ==> hw.regs[MSR_VM_HSAVE_PA] == 0
  {
    ghost var regs0 := hw.regs;
    hw.Write(MSR_VM_HSAVE_PA, 0);
    var efer := hw.Read(MSR_EFER);
    assert efer == Value(regs0, MSR_EFER);
    ghost var w0 := MsrWrite(MSR_VM_HSAVE_PA, 0);
    assert hw.regs == StoreAll(regs0, hw.writeFaults, [w0]) by {
      assert [w0][..0] == [];
    }
    if HasBits(efer, EFER_SVME) {
      ClearBitsHasNot(efer, EFER_SVME);
      hw.Write(MSR_EFER, ClearBits(efer, EFER_SVME));
      StoreAllSnoc(regs0, hw.writeFaults, [w0], MsrWrite(MSR_EFER, ClearBits(efer, EFER_SVME)));
    }
  }

  /**
   * The MSR writes of svm_hardware_enable: EFER with SVME added to the
   * value `efer` read from it, then the host save area address. Afterwards
   * SVM is on unless EFER is missing or rejects writes.
   */
  method EnableSvm(hw: MsrBank, efer: bv64, savePa: bv64)
    requires efer == Value(hw.regs, MSR_EFER)
    modifies hw
    ensures hw.Wrote(SvmOnWrites(efer, savePa))
    ensures MSR_EFER in old(hw.regs) && MSR_EFER !in hw.writeFaults ==> HasBits(Value(hw.regs, MSR_EFER), EFER_SVME)
    ensures hw.regs.Keys == old(hw.regs).Keys
    ensures forall m :: m in old(hw.regs) && m != MSR_EFER && m != MSR_VM_HSAVE_PA ==> hw.regs[m] == old(hw.regs)[m]
  {
    ghost var regs0 := hw.regs;
    ghost var w0 := MsrWrite(MSR_EFER, SetBits(efer, EFER_SVME));
    ghost var w1 := MsrWrite(MSR_VM_HSAVE_PA, savePa);
    SetBitsHas(efer, EFER_SVME);
    hw.Write(MSR_EFER, SetBits(efer, EFER_SVME));
    hw.Write(MSR_VM_HSAVE_PA, savePa);
    StoreAllSnoc(regs0, hw.writeFaults, [], w0);
    assert [] + [w0] == [w0];
    StoreAllSnoc(regs0, hw.writeFaults, [w0], w1);
    assert [w0] + [w1] == [w0, w1];
  }

  /** The first loop of is_erratum_383: clear the status registers of the
      first six machine-check banks. */
  method ClearMcStatus(hw: MsrBank)
    modifies hw
    ensures hw.Wrote(McStatusClears(MC_BANKS_CLEARED))
    ensures forall i :: 0 <= i < MC_BANKS_CLEARED && McxStatus(i) in hw.regs && McxStatus(i) !in hw.writeFaults
              ==> hw.regs[McxStatus(i)] == 0
  {
    for i := 0 to MC_BANKS_CLEARED
      invariant hw.Wrote(McStatusClears(i))
      invariant hw.regs.Keys == old(hw.regs).Keys
      invariant forall j :: 0 <= j < i && McxStatus(j) in hw.regs && McxStatus(j) !in hw.writeFaults
                  ==> hw.regs[McxStatus(j)] == 0
    {
      StoreAllSnoc(old(hw.regs), hw.writeFaults, McStatusClears(i), MsrWrite(McxStatus(i), 0));
      hw.Write(McxStatus(i), 0);
    }
  }

  /** The MCG_STATUS step of is_erratum_383: when the register can be read,
      write it back with MCIP cleared. Nothing else changes. */
  method ClearMcip(hw: MsrBank)
    modifies hw
    ensures hw.Wrote(McgStatusClear(old(hw.regs)))
    ensures hw.regs.Keys == old(hw.regs).Keys
    ensures forall m :: m in old(hw.regs) && m != MSR_IA32_MCG_STATUS ==> hw.regs[m] == old(hw.regs)[m]
    ensures MSR_IA32_MCG_STATUS in hw.regs && MSR_IA32_MCG_STATUS !in hw.writeFaults
            ==> !HasBits(hw.regs[MSR_IA32_MCG_STATUS], MCG_STATUS_MCIP)
  {
    var err, mcg := hw.ReadSafe(MSR_IA32_MCG_STATUS);
    if !err {
      ghost var w := MsrWrite(MSR_IA32_MCG_STATUS, ClearBits(mcg, MCG_STATUS_MCIP));
      ClearBitsHasNot(mcg, MCG_STATUS_MCIP);
      hw.Write(MSR_IA32_MCG_STATUS, ClearBits(mcg, MCG_STATUS_MCIP));
      StoreAllSnoc(old(hw.regs), hw.writeFaults, [], w);
      assert [] + [w] == [w];
    }
  }

  /**
   * The OSVW view (`newLen`, `newStatus`) after a CPU with registers `regs`
   * reports into the view (`len`, `status`). With the OSVW feature and both
   * registers readable, the length becomes the shorter of the two and the
   * status gains the CPU's bits, cut to the new length; otherwise the view
   * is cleared, so that every erratum counts as present.
   */
  ghost predicate OsvwMerged(len: nat, status: bv64, hasOsvw: bool, regs: map<u32, bv64>, newLen: nat, newStatus: bv64)
    requires len <= 64
  {
    if hasOsvw && MSR_AMD64_OSVW_ID_LENGTH in regs && MSR_AMD64_OSVW_STATUS in regs
    then && newLen == MergedLen(len, LengthOf(regs[MSR_AMD64_OSVW_ID_LENGTH]))
         && newStatus == MergedStatus(status, regs[MSR_AMD64_OSVW_STATUS], LowMask(newLen))
    else newLen == 0 && newStatus == 0
  }

  /** Whatever a CPU reports, the merged length does not grow and no status
      bit lies at or above it: `status < 1 << len` holds after every merge. */
  lemma OsvwMergedBounded(len: nat, status: bv64, hasOsvw: bool, regs: map<u32, bv64>, newLen: nat, newStatus: bv64)
    requires len <= 64
    requires OsvwMerged(len, status, hasOsvw, regs, newLen, newStatus)
    ensures newLen <= len && WithinMask(newStatus, LowMask(newLen))
  {
  }

  /** The OSVW step of svm_hardware_enable. Whatever the CPU reports, the
      length does not grow and no status bit lies at or above it. */
  method MergeOsvw(len: nat, status: bv64, hasOsvw: bool, regs: map<u32, bv64>) returns (newLen: nat, newStatus: bv64)
    requires len <= 64
    ensures OsvwMerged(len, status, hasOsvw, regs, newLen, newStatus)
    ensures newLen <= len && WithinMask(newStatus, LowMask(newLen))
  {
    newLen, newStatus := len, status;
    if hasOsvw {
      var err := MSR_AMD64_OSVW_ID_LENGTH !in regs;
      var reportedLen := Value(regs, MSR_AMD64_OSVW_ID_LENGTH);
      var reportedStatus: bv64 := 0;
      if !err {
        err := MSR_AMD64_OSVW_STATUS !in regs;
        reportedStatus := Value(regs, MSR_AMD64_OSVW_STATUS);
      }
      if err {
        newStatus, newLen := 0, 0;
      } else {
        newLen := MergedLen(newLen, LengthOf(reportedLen));
        newStatus := MergedStatus(newStatus, reportedStatus, LowMask(newLen));
      }
    } else {
      newStatus, newLen := 0, 0;
    }
  }

  /**
   * The three MSR steps of svm_hardware_enable (the EFER and save-area
   * writes, the OSVW reads, the DC_CFG write) compose: together they make
   * exactly the enable writes, and the OSVW and erratum results depend only
   * on the registers as they were before the first step.
   */
  lemma EnableComposes(regs0: map<u32, bv64>, regs1: map<u32, bv64>, regs2: map<u32, bv64>, faults: set<u32>,
                       writes0: seq<MsrWrite>, writes1: seq<MsrWrite>, writes2: seq<MsrWrite>,
                       savePagePa: bv64, hasOsvw: bool, hasTlbMmatchBug: bool,
                       len0: nat, status0: bv64, len1: nat, status1: bv64, found0: bool, found2: bool)
    requires len0 <= 64
    requires writes1 == writes0 + SvmOnWrites(Value(regs0, MSR_EFER), savePagePa)
    requires regs1 == StoreAll(regs0, faults, SvmOnWrites(Value(regs0, MSR_EFER), savePagePa))
    requires regs1.Keys == regs0.Keys
    requires forall m :: m in regs0 && m != MSR_EFER && m != MSR_VM_HSAVE_PA ==> regs1[m] == regs0[m]
    requires OsvwMerged(len0, status0, hasOsvw, regs1, len1, status1)
    requires writes2 == writes1 + Erratum383Enable(hasTlbMmatchBug, regs1)
    requires regs2 == StoreAll(regs1, faults, Erratum383Enable(hasTlbMmatchBug, regs1))
    requires found2 == (found0 || (hasTlbMmatchBug && MSR_AMD64_DC_CFG in regs1))
    ensures writes2 == writes0 + EnableWrites(regs0, savePagePa, hasTlbMmatchBug)
    ensures regs2 == StoreAll(regs0, faults, EnableWrites(regs0, savePagePa, hasTlbMmatchBug))
    ensures OsvwMerged(len0, status0, hasOsvw, regs0, len1, status1)
    ensures found2 == (found0 || (hasTlbMmatchBug && MSR_AMD64_DC_CFG in regs0))
  {
    var on, e := SvmOnWrites(Value(regs0, MSR_EFER), savePagePa), Erratum383Enable(hasTlbMmatchBug, regs0);
    assert Erratum383Enable(hasTlbMmatchBug, regs1) == e;
    assert writes2 == writes0 + (on + e);
    StoreAllAppend(regs0, faults, on, e);
  }

  /** The SVM state of the module: module globals and the per-CPU svm_data. */
  class SvmState {
    var erratum383Found: bool
    /** max_sev_asid, fixed before any CPU is enabled. */
    const maxSevAsid: bv32
    /** The read-only module parameter tsc_scaling. */
    const tscScaling: int
    var osvwLen: nat
    var osvwStatus: bv64
    const svmData: array<SvmCpuData>
    ghost var extCalls: seq<ExtCall>

    /** The OSVW length never grows past its initial value. That no status
        bit lies at or above it is part of every merge (MergeOsvw). */
    ghost predicate Valid()
      reads this`osvwLen
    {
      osvwLen <= OSVW_LEN_INITIAL
    }

    /** The module loaded: osvw_len = 4, no status bits, erratum not seen,
        every CPU's data zero. */
    constructor (nrCpus: nat, maxSevAsid: bv32, tscScaling: int)
      ensures this.maxSevAsid == maxSevAsid && this.tscScaling == tscScaling
      ensures !erratum383Found && osvwLen == OSVW_LEN_INITIAL && osvwStatus == 0
      ensures fresh(svmData) && svmData.Length == nrCpus
      ensures forall c :: 0 <= c < nrCpus ==> svmData[c] == ZeroCpuData
      ensures extCalls == []
      ensures Valid() && WithinMask(osvwStatus, LowMask(osvwLen))
    {
      erratum383Found := false;
      this.maxSevAsid := maxSevAsid;
      this.tscScaling := tscScaling;
      osvwLen := OSVW_LEN_INITIAL;
      osvwStatus := 0;
      svmData := new SvmCpuData[nrCpus](_ => ZeroCpuData);
      extCalls := [];
    }

    /**
     * is_erratum_383: when the erratum workaround is on and MC0_STATUS holds
     * its signature, clear the first six bank status registers and MCIP in
     * MCG_STATUS, flush the TLB and report true; otherwise touch nothing.
     */
    method IsErratum383(hw: MsrBank) returns (found: bool)
      modifies hw, this`extCalls
      ensures found <==> erratum383Found && MSR_IA32_MC0_STATUS in old(hw.regs)
                         && IsErratum383Status(old(hw.regs)[MSR_IA32_MC0_STATUS])
      ensures !found ==> unchanged(hw) && extCalls == old(extCalls)
      ensures found ==> hw.Wrote(McStatusClears(MC_BANKS_CLEARED) + McgStatusClear(old(hw.regs)))
      ensures found ==> extCalls == old(extCalls) + [FlushTlbAll]
      ensures found ==> forall i :: (0 <= i < MC_BANKS_CLEARED && McxStatus(i) in hw.regs && McxStatus(i) !in hw.writeFaults)
                                    ==> hw.regs[McxStatus(i)] == 0
      ensures found && MSR_IA32_MCG_STATUS in hw.regs && MSR_IA32_MCG_STATUS !in hw.writeFaults
              ==> !HasBits(hw.regs[MSR_IA32_MCG_STATUS], MCG_STATUS_MCIP)
    {
      if !erratum383Found {
        return false;
      }
      var err, value := hw.ReadSafe(MSR_IA32_MC0_STATUS);
      if err || !IsErratum383Status(value) {
        return false;
      }
      ghost var regs0 := hw.regs;
      ClearMcStatus(hw);
      ghost var regs1 := hw.regs;
      StoreAllFrame(regs0, hw.writeFaults, McStatusClears(MC_BANKS_CLEARED), MSR_IA32_MCG_STATUS);
      assert McgStatusClear(regs1) == McgStatusClear(regs0);
      ClearMcip(hw);
      StoreAllAppend(regs0, hw.writeFaults, McStatusClears(MC_BANKS_CLEARED), McgStatusClear(regs0));
      extCalls := extCalls + [FlushTlbAll];
      found := true;
    }

    /**
     * svm_init_erratum_383: on a CPU with the TLB multi-match bug whose
     * DC_CFG can be read, set bit 47 of DC_CFG and turn the erratum check on.
     */
    method InitErratum383(hasTlbMmatchBug: bool, hw: MsrBank)
      modifies this`erratum383Found, hw
      ensures erratum383Found == (old(erratum383Found) || (hasTlbMmatchBug && MSR_AMD64_DC_CFG in old(hw.regs)))
      ensures hw.Wrote(Erratum383Enable(hasTlbMmatchBug, old(hw.regs)))
      ensures hw.regs.Keys == old(hw.regs).Keys
      ensures forall m :: m in old(hw.regs) && m != MSR_AMD64_DC_CFG ==> hw.regs[m] == old(hw.regs)[m]
    {
      if !hasTlbMmatchBug {
        return;
      }
      var err, val := hw.ReadSafe(MSR_AMD64_DC_CFG);
      if err {
        return;
      }
      ghost var w := MsrWrite(MSR_AMD64_DC_CFG, SetBits(val, DC_CFG_ERRATUM_383));
      hw.Write(MSR_AMD64_DC_CFG, SetBits(val, DC_CFG_ERRATUM_383));
      assert [w][..0] == [];
      erratum383Found := true;
    }

    /**
     * The svm_data part of svm_hardware_enable: reset the CPU's data, start
     * ASID generation 1 with the cpuid ASID count (next_asid one past
     * max_asid, so the first VM run starts a new generation), keep the SEV
     * ASIDs below min_asid, and record the save area and TSS descriptor.
     */
    method SetupCpuData(cpu: nat, cpuidEbx: bv32, savePage: Ptr, savePagePa: bv64, tssDesc: Ptr)
      requires cpu < svmData.Length
      modifies svmData
      ensures svmData[cpu] == EnabledCpuData(cpuidEbx, maxSevAsid, savePage, savePagePa, tssDesc)
      ensures forall c :: 0 <= c < svmData.Length && c != cpu ==> svmData[c] == old(svmData[c])
    {
      var sd := ZeroCpuData;
      sd := sd.(asidGeneration := 1);
      sd := sd.(maxAsid := cpuidEbx - 1);
      sd := sd.(nextAsid := sd.maxAsid + 1);
      sd := sd.(minAsid := maxSevAsid + 1);
      sd := sd.(saveArea := savePage, saveAreaPa := savePagePa);
      sd := sd.(tssDesc := tssDesc);
      svmData[cpu] := sd;
    }

    /** The OSVW part of svm_hardware_enable, on the global view. */
    method UpdateOsvw(hasOsvw: bool, hw: MsrBank)
      requires Valid()
      modifies this`osvwLen, this`osvwStatus
      ensures Valid()
      ensures osvwLen <= old(osvwLen)
      ensures OsvwMerged(old(osvwLen), old(osvwStatus), hasOsvw, hw.regs, osvwLen, osvwStatus)
    {
      var len, status := MergeOsvw(osvwLen, osvwStatus, hasOsvw, hw.regs);
      osvwLen, osvwStatus := len, status;
    }

    /**
     * The MSR part of svm_hardware_enable once SVM is known to be off:
     * turn SVM on with its host save area, merge the CPU's OSVW report,
     * then set up the erratum-383 workaround.
     */
    method ConfigureMsrs(hw: MsrBank, efer: bv64, savePagePa: bv64, hasOsvw: bool, hasTlbMmatchBug: bool)
      requires Valid() && efer == Value(hw.regs, MSR_EFER)
      modifies this`osvwLen, this`osvwStatus, this`erratum383Found, hw
      ensures Valid()
      ensures hw.Wrote(EnableWrites(old(hw.regs), savePagePa, hasTlbMmatchBug))
      ensures MSR_EFER in old(hw.regs) && MSR_EFER !in hw.writeFaults ==> HasBits(hw.Read(MSR_EFER), EFER_SVME)
      ensures OsvwMerged(old(osvwLen), old(osvwStatus), hasOsvw, old(hw.regs), osvwLen, osvwStatus)
      ensures erratum383Found == (old(erratum383Found) || (hasTlbMmatchBug && MSR_AMD64_DC_CFG in old(hw.regs)))
    {
      ghost var regs0, writes0 := hw.regs, hw.writes;
      ghost var len0, status0, found0 := osvwLen, osvwStatus, erratum383Found;
      EnableSvm(hw, efer, savePagePa);
      ghost var regs1, writes1 := hw.regs, hw.writes;
      UpdateOsvw(hasOsvw, hw);
      ghost var len1, status1 := osvwLen, osvwStatus;
      InitErratum383(hasTlbMmatchBug, hw);
      EnableComposes(regs0, regs1, hw.regs, hw.writeFaults, writes0, writes1, hw.writes, savePagePa, hasOsvw, hasTlbMmatchBug,
                     len0, status0, len1, status1, found0, erratum383Found);
    }

    /**
     * What a successful svm_hardware_enable on CPU `cpu` leaves behind,
     * against the state before it: the CPU's data reset with its ASID range
     * and save area, the other CPUs' data untouched, exactly the enable
     * writes made (SVM on unless EFER rejects the write), the CPU's OSVW
     * report merged, the erratum check on if the workaround was set up, and
     * the PMU told.
     */
    twostate predicate EnabledOn(cpu: nat, hw: MsrBank, cpuidEbx: bv32, hasOsvw: bool, hasTlbMmatchBug: bool,
                                 savePage: Ptr, savePagePa: bv64, tssDesc: Ptr)
      requires cpu < svmData.Length && old(osvwLen) <= 64
      reads this, svmData, hw
    {
      && svmData[cpu] == EnabledCpuData(cpuidEbx, maxSevAsid, savePage, savePagePa, tssDesc)
      && (forall c :: 0 <= c < svmData.Length && c != cpu ==> svmData[c] == old(svmData[c]))
      && hw.Wrote(EnableWrites(old(hw.regs), savePagePa, hasTlbMmatchBug))
      && (MSR_EFER in old(hw.regs) && MSR_EFER !in hw.writeFaults ==> HasBits(hw.Read(MSR_EFER), EFER_SVME))
      && OsvwMerged(old(osvwLen), old(osvwStatus), hasOsvw, old(hw.regs), osvwLen, osvwStatus)
      && erratum383Found == (old(erratum383Found) || (hasTlbMmatchBug && MSR_AMD64_DC_CFG in old(hw.regs)))
      && extCalls == old(extCalls) + [AmdPmuEnableVirt]
    }

    /**
     * svm_hardware_enable on CPU `cpu`. The cpuid ASID count, the OSVW and
     * TLB-multi-match feature bits, the page alloc_page returns with its
     * physical address, and the TSS descriptor address are inputs.
     * SVM already on is -EBUSY with nothing changed. Otherwise the CPU's
     * data is reset and its ASID range set, SVM is turned on with its host
     * save area, the CPU's OSVW report is merged into the global view (or
     * the view is cleared when the CPU has no OSVW or a read faults), the
     * erratum-383 workaround is set up and the PMU is told.
     */
    method HardwareEnable(cpu: nat, hw: MsrBank, cpuidEbx: bv32, hasOsvw: bool, hasTlbMmatchBug: bool,
                          savePage: Ptr, savePagePa: bv64, tssDesc: Ptr) returns (r: int)
      requires Valid() && cpu < svmData.Length
      modifies this, svmData, hw
      ensures Valid()
      ensures r == 0 || r == -EBUSY
      ensures r == -EBUSY <==> HasBits(Value(old(hw.regs), MSR_EFER), EFER_SVME)
      ensures r == -EBUSY ==> unchanged(this, svmData, hw)
      ensures r == 0 ==> EnabledOn(cpu, hw, cpuidEbx, hasOsvw, hasTlbMmatchBug, savePage, savePagePa, tssDesc)
      ensures r == 0 ==> WithinMask(osvwStatus, LowMask(osvwLen))
    {
      var efer := hw.Read(MSR_EFER);
      if HasBits(efer, EFER_SVME) {
        return -EBUSY;
      }
      SetupCpuData(cpu, cpuidEbx, savePage, savePagePa, tssDesc);
      ghost var len0, status0, regs0 := osvwLen, osvwStatus, hw.regs;
      ConfigureMsrs(hw, efer, savePagePa, hasOsvw, hasTlbMmatchBug);
      OsvwMergedBounded(len0, status0, hasOsvw, regs0, osvwLen, osvwStatus);

      extCalls := extCalls + [AmdPmuEnableVirt];
      r := 0;
    }

    /** svm_hardware_disable as written: cpu_svm_disable runs only when
        tsc_scaling is set, then the save area is freed and the PMU told. */
    method HardwareDisableAsWritten(cpu: nat, hw: MsrBank)
      requires cpu < svmData.Length
      modifies svmData, hw, this`extCalls
      ensures hw.Wrote(if tscScaling != 0 then CpuSvmDisableWrites(old(hw.regs)) else [])
      ensures tscScaling == 0 ==> hw.regs == old(hw.regs)
      ensures svmData[..] == old(svmData[..])[cpu := old(svmData[cpu]).(saveArea := NULL, saveAreaPa := 0)]
      ensures extCalls == old(extCalls) + [FreePage(old(svmData[cpu].saveArea)), AmdPmuDisableVirt]
    {
      if tscScaling != 0 {
        CpuSvmDisable(hw);
      }
      ReleaseSaveArea(cpu);
    }

    /** svm_hardware_disable as its comments intend: SVM is turned off
        unconditionally, then the save area is freed and the PMU told. */
    method HardwareDisable(cpu: nat, hw: MsrBank)
      requires cpu < svmData.Length
      modifies svmData, hw, this`extCalls
      ensures hw.Wrote(CpuSvmDisableWrites(old(hw.regs)))
      ensures MSR_EFER !in hw.writeFaults ==> !HasBits(hw.Read(MSR_EFER), EFER_SVME)
      ensures svmData[..] == old(svmData[..])[cpu := old(svmData[cpu]).(saveArea := NULL, saveAreaPa := 0)]
      ensures extCalls == old(extCalls) + [FreePage(old(svmData[cpu].saveArea)), AmdPmuDisableVirt]
    {
      CpuSvmDisable(hw);
      ReleaseSaveArea(cpu);
    }

    /** The tail of svm_hardware_disable: free the host save area, forget
        it, and tell the PMU. */
    method ReleaseSaveArea(cpu: nat)
      requires cpu < svmData.Length
      modifies svmData, this`extCalls
      ensures svmData[..] == old(svmData[..])[cpu := old(svmData[cpu]).(saveArea := NULL, saveAreaPa := 0)]
      ensures extCalls == old(extCalls) + [FreePage(old(svmData[cpu].saveArea)), AmdPmuDisableVirt]
    {
      var sd := svmData[cpu];
      extCalls := extCalls + [FreePage(sd.saveArea)];
      svmData[cpu] := sd.(saveAreaPa := 0, saveArea := NULL);
      extCalls := extCalls + [AmdPmuDisableVirt];
    }
  }

  /**
   * With tsc_scaling = 0, svm_hardware_disable as written leaves EFER.SVME
   * set, so enabling the same CPU again fails with -EBUSY.
   */
  method DisableAsWrittenBlocksReenable() returns (first: int, second: int)
    ensures first == 0 && second == -EBUSY
  {
    var hw := new MsrBank(map[MSR_EFER := 0, MSR_VM_HSAVE_PA := 0], {});
    var svm := new SvmState(1, 0, 0);
    first := svm.HardwareEnable(0, hw, 16, false, false, 1, 0x1000, 2);
    svm.HardwareDisableAsWritten(0, hw);
    second := svm.HardwareEnable(0, hw, 16, false, false, 1, 0x1000, 2);
  }

  /**
   * With the same setting, the corrected svm_hardware_disable turns SVM
   * off, and enabling the CPU again succeeds.
   */
  method DisableAllowsReenable() returns (first: int, second: int)
    ensures first == 0 && second == 0
  {
    var hw := new MsrBank(map[MSR_EFER := 0, MSR_VM_HSAVE_PA := 0], {});
    var svm := new SvmState(1, 0, 0);
    first := svm.HardwareEnable(0, hw, 16, false, false, 1, 0x1000, 2);
    svm.HardwareDisable(0, hw);
    second := svm.HardwareEnable(0, hw, 16, false, false, 1, 0x1000, 2);
  }
}
