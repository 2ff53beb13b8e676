# KVM virtualization-enablement core, modelled in Dafny

This project models the code that turns hardware virtualization on and off
for KVM, split out of the KVM module into its own unit. It covers four parts:

- **The generic hardware-enable state machine** (virt/kvm/vac.c).
  - It keeps a global usage count `kvm_usage_count` and a per-CPU flag `hardware_enabled`.
  - `hardware_enable_all` and `hardware_disable_all` change the usage count. The CPU is enabled or disabled on every online CPU only on the 0 -> 1 and 1 -> 0 edges.
  - When any CPU fails to enable, the enable is rolled back and the call returns -EBUSY.
  - Hotplug (`kvm_online_cpu`, `kvm_offline_cpu`), reboot and suspend/resume enable or disable single CPUs.
- **The x86 user-return MSR registry** (arch/x86/kvm/vac.c and vac.h).
  - It is an append-only list of up to 16 MSRs. A register must pass a read/write-back probe before it is added.
  - Per CPU, each slot holds a `(host, curr)` pair. A guest value written under a mask stays loaded until the CPU returns to user mode. The user-return notifier then writes the host value back to every slot that drifted.
- **The AMD SVM enable and disable paths** (arch/x86/kvm/svm/vac.c).
  - Enable is refused with -EBUSY when EFER.SVME is already set.
  - Enable resets the CPU's `svm_cpu_data` and sets its ASID range. It then turns on EFER.SVME and writes the host save-area address.
  - Each CPU's OS-visible-workaround (OSVW) report is merged into one worst-case global view.
  - The erratum-383 workaround is set up and detected: the DC_CFG bit, the MC0_STATUS signature, and clearing MCi_STATUS and MCG_STATUS.MCIP.
  - Disable as written turns SVM off only when `tsc_scaling` is set (see Findings), then releases the save area.
- **The VMX per-CPU VMXON region table** (arch/x86/kvm/vmx/vac.c).

## How the model is built

Files and what they hold:

| file | module | holds |
|---|---|---|
| kernel.dfy | `Kernel` | `u32`, kernel addresses, errno values |
| msr.dfy | `Msr` | one CPU's MSRs, as a class `MsrBank` |
| hardware_enable.dfy | `HardwareEnable` | class `Vac` with the usage count, the rebooting flag, the online-CPU set and the per-CPU flag array |
| user_return.dfy | `UserReturn` | class `Registry` with the MSR list array, the slot count and one `UserReturnMsrs` object per CPU |
| svm.dfy | `Svm` | class `SvmState` with the module globals and the per-CPU `svm_data` array |
| vmx.dfy | `Vmx` | class `VmxAreas` with the per-CPU table |

How the hardware is represented:

- **MSRs.** `MsrBank` holds a map from MSR number to 64-bit value.
  - A read faults exactly when the register is missing.
  - A write faults when the register is missing or is in the bank's `writeFaults` set. A faulting write leaves the register as it was.
  - A ghost log records every attempted write in order.
- **Other hardware and outside calls become inputs:**
  - which CPUs are online at start; after that, `OnlineCpu` and `OfflineCpu` add and remove them, and the broadcasts read that set;
  - which CPUs fail the architecture enable;
  - CPUID's ASID count and the OSVW and TLB-multi-match feature bits;
  - the page `alloc_page` returns, with its physical address;
  - the TSS descriptor address.
- **Call logs.** Calls into code outside the model are recorded in ghost logs: the architecture's enable and disable, `amd_pmu_*_virt`, `__free_page`, `__flush_tlb_all`.
- **Running on a CPU.** The CPU an operation runs on is an explicit `cpu` argument.
- **Broadcasts.** `on_each_cpu` is a loop over the CPU ids in ascending order, restricted to the online CPUs.

## Model

| member | source | states |
|---|---|---|
| HardwareEnable.Vac.constructor | virt/kvm/vac.c:17-21 | no users, not rebooting, no CPU enabled, the given CPUs online; `Valid` holds |
| HardwareEnable.Vac.HardwareEnableLocal | virt/kvm/vac.c:23-36 | on an enabled CPU: 0 and no architecture call; otherwise one architecture enable; -EIO if it fails, else 0; the flag is set exactly when the result is 0 |
| HardwareEnable.Vac.HardwareEnableNolock | virt/kvm/vac.c:38-42 | the failure counter grows by one exactly when the CPU was not enabled and its enable fails |
| HardwareEnable.Vac.HardwareDisableNolock | virt/kvm/vac.c:60-72 | a disabled CPU is untouched; otherwise one architecture disable and the flag cleared; cannot fail |
| HardwareEnable.Vac.BroadcastEnable | virt/kvm/vac.c:119 | flags become `AfterEnable` (online CPUs whose enable succeeds are set, others unchanged), the calls are `BroadcastOps`, and `failed > 0` iff some online, not-yet-enabled CPU fails |
| HardwareEnable.Vac.BroadcastDisable | virt/kvm/vac.c:89 | flags become `AfterDisable` (no online CPU enabled, offline CPUs unchanged), the calls are `BroadcastOps` |
| HardwareEnable.BroadcastOpsExactly | virt/kvm/vac.c:23-72 | a broadcast calls the architecture on a CPU iff it is online and its flag differs from the target, and only in the broadcast's direction |
| HardwareEnable.BroadcastOpsAscending | virt/kvm/vac.c:119 | a broadcast's calls are in strictly ascending CPU order, so at most one per CPU |
| HardwareEnable.ReenableRetriesOnlyFailures | virt/kvm/vac.c:25-26 | a second enable broadcast retries exactly the online CPUs that failed; with no failures it calls nothing |
| HardwareEnable.RedisableIsNoop | virt/kvm/vac.c:66-67 | a second disable broadcast calls nothing |
| HardwareEnable.RollbackIsAllOrNothing | virt/kvm/vac.c:119-124 | an enable broadcast followed by a disable broadcast leaves the flags as a disable alone would; from no CPU enabled, as they were |
| HardwareEnable.Vac.OnlineCpu | virt/kvm/vac.c:44-58 | the CPU is online afterwards; with no users, nothing else happens and 0 is returned; otherwise that CPU's enable and its error; the count is untouched; `Valid` is preserved |
| HardwareEnable.Vac.OfflineCpu | virt/kvm/vac.c:74-81 | returns 0; disables that CPU only while there are users; the CPU leaves the online set with virtualization off; `Valid` is preserved |
| HardwareEnable.Vac.HardwareDisableAllNolock | virt/kvm/vac.c:83-90 | given a positive count (the BUG_ON), the count drops by one; only on reaching 0 is every online CPU disabled, and then no CPU at all is enabled; `Valid` (count non-negative, no offline CPU enabled, none enabled at count 0) is preserved |
| HardwareEnable.Vac.HardwareDisableAll | virt/kvm/vac.c:92-99 | the same under the locks: the last user leaves no CPU enabled |
| HardwareEnable.Vac.HardwareEnableAll | virt/kvm/vac.c:101-131 | result 0 or -EBUSY. With users already, the count rises and nothing else changes. On the 0 -> 1 edge, success iff no online CPU fails, in which case exactly the online CPUs are enabled. On failure the count is back to 0, the flags are as before (none enabled), and the calls are the enable broadcast then the rollback. `Valid` is preserved |
| HardwareEnable.Vac.Reboot | virt/kvm/vac.c:133-146 | sets rebooting, disables every online CPU whatever the count, so no CPU is left enabled; returns NOTIFY_OK, count unchanged; `Valid` is preserved |
| HardwareEnable.Vac.Suspend | virt/kvm/vac.c:148-164 | returns 0; disables the CPU only while there are users; `Valid` is preserved |
| HardwareEnable.OfflineThenDisableAllScenario | virt/kvm/vac.c:74-99 | with two CPUs online, enabling for one user enables both; taking CPU 1 offline disables it; the last user leaving leaves neither enabled |
| HardwareEnable.Vac.Resume | virt/kvm/vac.c:166-173 | re-enables the CPU, which is online, only while there are users; the failure is dropped; `Valid` is preserved |
| Msr.MsrBank.ReadSafe | arch/x86/kvm/vac.c:49 | a read faults exactly on a missing register and yields its value, zero on a fault |
| Msr.MsrBank.WriteSafe | arch/x86/kvm/vac.c:52 | a write faults exactly on a missing or write-protected register, is logged, and changes only that register, only when it does not fault |
| Msr.MsrBank.Write | arch/x86/kvm/vac.c:37 | the unchecked write: logged, and applied unless it faults |
| UserReturn.Merge | arch/x86/kvm/vac.c:88 | the merged value has `value`'s bits under the mask and the host value's bits elsewhere |
| UserReturn.ProbeUserReturnMsr | arch/x86/kvm/vac.c:43-56 | 0 iff the register exists and accepts writes, else -EIO; writes back the value read (no write when the read faults); registers unchanged |
| UserReturn.UserReturnMsrs.constructor | arch/x86/kvm/vac.h:15-22 | one `registered` flag, false, and 16 `(host, curr)` pairs, zero |
| UserReturn.Registry.constructor | arch/x86/kvm/vac.c:8-14 | a 16-entry list, no slot in use, each CPU its own zeroed state |
| UserReturn.FindIndex | arch/x86/kvm/vac.c:74-78 | the lowest index holding the MSR, or -1 exactly when it is absent |
| UserReturn.Registry.FindUserReturnMsr | arch/x86/kvm/vac.c:70-79 | the lowest slot in use holding the MSR, or -1 iff none does; changes nothing |
| UserReturn.Registry.IsSupportedUserReturnMsr | arch/x86/kvm/vac.h:32-35 | holds iff the MSR is among the slots in use, the same test as find returning a slot |
| UserReturn.Registry.AddUserReturnMsr | arch/x86/kvm/vac.c:58-67 | needs a free slot (the BUG_ON). A failing probe gives -1, list and count unchanged. Otherwise the MSR goes into slot old count and that slot is returned; the count rises by one, earlier slots are kept and the MSR is supported afterwards. There is no duplicate check |
| UserReturn.Registry.SetUserReturnMsr | arch/x86/kvm/vac.c:82-102 | a merged value equal to `curr` is 0 with nothing written or changed. Otherwise one write of it; a fault gives 1 with the slot and flag unchanged. Success gives 0, `curr` the merged value, other slots unchanged and the notifier armed. Set preserves `Restored` (no slot in use drifted while the notifier is disarmed) |
| UserReturn.Registry.OnUserReturn | arch/x86/kvm/vac.c:16-41 | disarmed; every slot in use has `curr == host`; slots beyond the count untouched; the writes are `RestoreWrites` and the registers show them |
| UserReturn.RestoreSlots | arch/x86/kvm/vac.c:34-40 | the loop leaves the table `Drained` and makes exactly `RestoreWrites` |
| UserReturn.RestoreSlot | arch/x86/kvm/vac.c:35-39 | one slot: write the host value if it drifted, then `curr := host` |
| UserReturn.RestoreWritesExactly | arch/x86/kvm/vac.c:36-37 | a write is made iff it writes some drifted slot's host value to that slot's MSR |
| UserReturn.RestoreWritesBound | arch/x86/kvm/vac.c:34-40 | at most one write per slot, and none when no slot drifted |
| UserReturn.DeferredRestoreScenario | arch/x86/kvm/vac.h:8-12 | adding X, loading 0xAB under mask 0xFF over host 0 puts 0xAB in X and arms the notifier; returning to user mode puts 0 back and disarms it |
| Svm.McStatusClears | arch/x86/kvm/svm/vac.c:36-37 | six writes, the i-th zeroing MC i's status register |
| Svm.Erratum383StatusValues | arch/x86/kvm/svm/vac.c:29-33 | the MC0 test accepts exactly the signature 0xb600000000010015, with bit 62 clear or set |
| Svm.LowMaskIsShiftMinusOne | arch/x86/kvm/svm/vac.c:143 | the length mask is `(1ULL << n) - 1` and `1ULL << n` is a power of two |
| Svm.MergedLen | arch/x86/kvm/svm/vac.c:140-141 | the merged length is the shorter of the two |
| Svm.MergedStatus | arch/x86/kvm/svm/vac.c:142-143 | every masked bit either side has is kept, no bit is invented, no bit outside the mask survives |
| Svm.OsvwMergeCommutes | arch/x86/kvm/svm/vac.c:119-144 | the merged view does not depend on the order two CPUs report in |
| Svm.OsvwMergeIdempotent | arch/x86/kvm/svm/vac.c:140-143 | a CPU reporting the same thing twice changes nothing the second time |
| Svm.OsvwMergedBounded | arch/x86/kvm/svm/vac.c:140-143 | after any merge the length has not grown and the status is below `1 << len` |
| Svm.MergeOsvw | arch/x86/kvm/svm/vac.c:128-146 | with the feature and both reads succeeding, the length becomes the shorter one and the status gains the CPU's bits cut to the new length; otherwise both become 0 |
| Svm.EnabledCpuData | arch/x86/kvm/svm/vac.c:93-103 | ASID generation 1, `next_asid` the cpuid count and one past `max_asid`, `min_asid` one past the SEV ASIDs, save area and TSS recorded, every other field zero |
| Svm.CpuSvmDisable | arch/x86/kvm/svm/vac.c:166 | writes 0 to the save-area MSR, then clears EFER.SVME if set; afterwards SVM is off unless EFER rejects writes |
| Svm.EnableSvm | arch/x86/kvm/svm/vac.c:105-107 | EFER with SVME added, then the save-area address; SVM is on unless EFER is missing or rejects writes; no other register changes |
| Svm.ClearMcStatus | arch/x86/kvm/svm/vac.c:35-37 | six writes zeroing MC0..MC5 status; each writable one ends zero |
| Svm.ClearMcip | arch/x86/kvm/svm/vac.c:39-48 | when MCG_STATUS can be read it is written back with MCIP cleared; nothing else changes |
| Svm.EnableComposes | arch/x86/kvm/svm/vac.c:105-148 | the three MSR steps of enable make exactly the enable writes, and their OSVW and erratum results depend only on the registers before the first step |
| Svm.SvmState.constructor | arch/x86/kvm/svm/vac.h:16 | `osvw_len` 4, no status bit, erratum not seen, every CPU's data zero |
| Svm.SvmState.IsErratum383 | arch/x86/kvm/svm/vac.c:17-54 | true iff the erratum is armed and MC0_STATUS can be read and holds the signature. Then it makes exactly the six status clears and the MCIP clear, and flushes the TLB. Otherwise nothing is touched |
| Svm.SvmState.InitErratum383 | arch/x86/kvm/svm/vac.c:57-79 | with the bug and DC_CFG readable, bit 47 of DC_CFG is set and the erratum armed; otherwise nothing changes |
| Svm.SvmState.SetupCpuData | arch/x86/kvm/svm/vac.c:93-103 | the CPU's data becomes `EnabledCpuData`; other CPUs' data unchanged |
| Svm.SvmState.UpdateOsvw | arch/x86/kvm/svm/vac.c:128-146 | the global view is merged with the CPU's report; the length never grows past 4 |
| Svm.SvmState.ConfigureMsrs | arch/x86/kvm/svm/vac.c:105-148 | exactly the enable writes; SVM on unless EFER rejects writes; OSVW merged and erratum armed, both as read from the registers before enabling |
| Svm.SvmState.HardwareEnable | arch/x86/kvm/svm/vac.c:81-153 | -EBUSY iff EFER.SVME was set, then nothing changes. Otherwise 0 with everything `EnabledOn` states: data reset, enable writes, OSVW merged with `status < 1 << len`, erratum set up, PMU told |
| Svm.SvmState.HardwareDisableAsWritten | arch/x86/kvm/svm/vac.c:156-174 | as written: `cpu_svm_disable` only when `tsc_scaling` is set; save area freed and forgotten; PMU told |
| Svm.SvmState.HardwareDisable | arch/x86/kvm/svm/vac.c:156-174 | as intended: SVM always turned off; save area freed and forgotten; PMU told |
| Svm.SvmState.ReleaseSaveArea | arch/x86/kvm/svm/vac.c:168-173 | the save page is freed, `save_area_pa` 0, `save_area` NULL, then the PMU is told |
| Svm.DisableAsWrittenBlocksReenable | arch/x86/kvm/svm/vac.c:162-166 | with `tsc_scaling` 0, enable, disable as written, enable again gives 0 then -EBUSY |
| Svm.DisableAllowsReenable | arch/x86/kvm/svm/vac.c:162-166 | with the corrected disable, the same sequence gives 0 then 0 |
| Vmx.VmxAreas.constructor | arch/x86/kvm/vmx/vac.c:6 | every CPU's entry starts NULL |
| Vmx.VmxAreas.SetVmxArea | arch/x86/kvm/vmx/vac.c:8-10 | that CPU's entry becomes the region; no other entry changes |
| Vmx.VmxAreas.GetVmxArea | arch/x86/kvm/vmx/vac.c:12-14 | that CPU's entry; changes nothing |
| Vmx.VmxAreaScenario | arch/x86/kvm/vmx/vac.c:8-14 | the last region set is read back, repeatedly, and an unset CPU still reads NULL |

## Left out

The model covers single-threaded behaviour only:

- Locks, interrupt and preemption control, and the running-CPU context (`vac_lock`, `cpus_read_lock`, `lockdep_*`, `local_irq_save`, `preempt_disable`, `smp_processor_id`): operations are atomic sequential steps. Concurrency between CPUs is not modelled.
- `on_each_cpu` runs its callback on the online CPUs in ascending id order. The cross-CPU interleaving is not modelled.
- The user-return notifier chain: `user_return_notifier_register` and `unregister` are represented by the `registered` flag alone.

Hardware and code outside the model enter as oracles and inputs:

- `kvm_arch_hardware_enable` and `kvm_arch_hardware_disable` are oracles; only the calls are logged.
- CPUID, `alloc_page`, `__sme_page_pa` and the GDT lookup are inputs.
- `amd_pmu_*_virt`, `__free_page` and `__flush_tlb_all` are only logged.
- MSR existence and write faults are fixed per bank. The unchecked `wrmsrl`/`rdmsrl` use the same fault model, with the fault swallowed.

Other gaps:

- `kvm_spurious_fault` and `vac_init`: an unconditional BUG_ON, and a dispatch to code that is not part of this model.
- Declaration-only headers, the loaded-VMCS prototypes, and `pr_info`/`WARN_ON_ONCE` logging.
- `kvm_usage_count` is an unbounded integer; its `int` overflow is not modelled.
- The `X86_FEATURE_TSCRATEMSR` branch of `svm_hardware_enable` is empty in the source, so it has nothing to model.
- svm.h is not part of this model. The `svm_cpu_data` field widths are assumed: 64-bit ASID generation, 32-bit unsigned ASIDs. Its other fields are represented only by the two VMCB addresses that the memset zeroes.
- asm/virtext.h is not part of this model. `cpu_svm_disable` is modelled as writing 0 to MSR_VM_HSAVE_PA, then clearing EFER.SVME when it is set. Its STGI/GIF handling is left out.
- MSR numbers and bit positions come from the kernel's msr-index.h, which is not part of this model.
- Svm.LowMask: defined only for lengths up to 64. `osvw_len` never exceeds 4, so the C shift `1ULL << osvw_len` is always defined.
- Svm.MergeOsvw: the two OSVW reads are read from the CPU's register map. They are not calls on the bank, because reads change nothing.
- The code has no duplicate check, no full-list error and no busy error from onlining a CPU; the model follows the code:
  - the same MSR can be added twice;
  - a full list is a BUG_ON, so it is a precondition here;
  - `kvm_online_cpu` and `kvm_resume` see the per-CPU enable error -EIO, and only `hardware_enable_all` turns a failure into -EBUSY.
- HardwareEnable.Vac.OnlineCpu: the hotplug core's rollback of a CPU whose online step failed is not modelled; the CPU stays in the online set with its flag clear, which `Valid` allows.
- UserReturn.Registry.SetUserReturnMsr: the slot is not checked against the slot count, as in the code. A set on an unused slot followed by an add can expose a drifted slot while the notifier is disarmed, so `Restored` is preserved by set and by the user-return notifier but is not an invariant of the whole registry.

## Findings

| source | as written | input that shows it | evidently intended | confidence | as-written member | corrected member |
|---|---|---|---|---|---|---|
| arch/x86/kvm/svm/vac.c:162-166 | With the TSC-multiplier call commented out, `cpu_svm_disable();` becomes the body of `if (tsc_scaling)`. With `tsc_scaling=0`, SVM is never turned off. | `tsc_scaling=0`; enable CPU 0, disable it, enable it again: the second enable sees EFER.SVME still set and returns -EBUSY | `cpu_svm_disable()` runs on every disable, so the CPU can be enabled again | not executed | Svm.DisableAsWrittenBlocksReenable (with Svm.SvmState.HardwareDisableAsWritten) | Svm.DisableAllowsReenable (with Svm.SvmState.HardwareDisable) |
