/**
 * The generic hardware-enable state machine: a global usage count, a
 * per-CPU `hardware_enabled` flag and a `kvm_rebooting` flag, driven by
 * enable-all/disable-all, CPU hotplug, reboot and suspend/resume.
 *
 * Locks are modelled as sequential execution. `on_each_cpu` runs its
 * callback on every online CPU; each callback touches only its own CPU's
 * flag, so the broadcast is a loop over the CPU ids in ascending order,
 * restricted to the `online` set the caller passes. The outcome of the
 * architecture's enable on each CPU is the oracle `archFails`: the CPUs
 * whose enable fails.
 */
module HardwareEnable {
  import opened Kernel

  /** A call into the architecture's enable or disable on one CPU. */
  datatype ArchOp = ArchEnable(cpu: nat) | ArchDisable(cpu: nat)

  /** The architecture calls one broadcast makes, in ascending CPU order:
      with `enable`, an enable on each online CPU not yet flagged; without,
      a disable on each online CPU that is flagged. */
  ghost function BroadcastOps(flags: seq<bool>, online: set<nat>, enable: bool): seq<ArchOp>
    decreases |flags|
  {
    if flags == [] then []
    else
      var c := |flags| - 1;
      BroadcastOps(flags[..c], online, enable)
        + (if c in online && flags[c] != enable
           then [if enable then ArchEnable(c) else ArchDisable(c)]
           else [])
  }

  /** The per-CPU flags after an enable broadcast: every online CPU whose
      architecture enable succeeds is flagged. */
  ghost function AfterEnable(flags: seq<bool>, online: set<nat>, archFails: set<nat>): seq<bool>
  {
    seq(|flags|, c requires 0 <= c < |flags| => flags[c] || (c in online && c !in archFails))
  }

  /** The per-CPU flags after a disable broadcast: no online CPU is flagged. */
  ghost function AfterDisable(flags: seq<bool>, online: set<nat>): seq<bool>
  {
    seq(|flags|, c requires 0 <= c < |flags| => flags[c] && c !in online)
  }

  /** A broadcast calls the architecture exactly on the online CPUs whose
      flag differs from the target, and only in the broadcast's direction. */
  lemma {:induction false} BroadcastOpsExactly(flags: seq<bool>, online: set<nat>, enable: bool, op: ArchOp)
    ensures op in BroadcastOps(flags, online, enable) <==>
      && op == (if enable then ArchEnable(op.cpu) else ArchDisable(op.cpu))
      && op.cpu < |flags| && op.cpu in online && flags[op.cpu] != enable
    decreases |flags|
  {
    if flags != [] {
      var c := |flags| - 1;
      BroadcastOpsExactly(flags[..c], online, enable, op);
    }
  }

  /** A broadcast calls the architecture at most once per CPU: the CPU ids
      of its calls strictly increase, and all are ids of existing CPUs. */
  lemma {:induction false} BroadcastOpsAscending(flags: seq<bool>, online: set<nat>, enable: bool)
    ensures var ops := BroadcastOps(flags, online, enable);
      forall i, j :: 0 <= i < j < |ops| ==> ops[i].cpu < ops[j].cpu < |flags|
    decreases |flags|
  {
    if flags != [] {
      var c := |flags| - 1;
      BroadcastOpsAscending(flags[..c], online, enable);
      var pre := BroadcastOps(flags[..c], online, enable);
      forall i | 0 <= i < |pre| ensures pre[i].cpu < c {
        BroadcastOpsExactly(flags[..c], online, enable, pre[i]);
      }
    }
  }

  /** The flags of an enable broadcast over a prefix of the CPUs are the
      prefix of the flags of the whole broadcast. */
  lemma AfterEnablePrefix(flags: seq<bool>, online: set<nat>, archFails: set<nat>, n: nat)
    requires n <= |flags|
    ensures AfterEnable(flags, online, archFails)[..n] == AfterEnable(flags[..n], online, archFails)
  {
  }

  /** Enabling again after an enable broadcast retries exactly the online
      CPUs whose enable failed; so when none failed, per-CPU enable is
      idempotent and a second broadcast calls nothing. */
  lemma {:induction false} ReenableRetriesOnlyFailures(flags: seq<bool>, online: set<nat>, archFails: set<nat>)
    ensures BroadcastOps(AfterEnable(flags, online, archFails), online, true)
         == BroadcastOps(flags, online * archFails, true)
    ensures BroadcastOps(AfterEnable(flags, online, {}), online, true) == []
    decreases |flags|
  {
    if flags != [] {
      var c := |flags| - 1;
      AfterEnablePrefix(flags, online, archFails, c);
      AfterEnablePrefix(flags, online, {}, c);
      ReenableRetriesOnlyFailures(flags[..c], online, archFails);
    }
  }

  /** Disabling again after a disable broadcast calls nothing: per-CPU
      disable is idempotent. */
  lemma {:induction false} RedisableIsNoop(flags: seq<bool>, online: set<nat>)
    ensures BroadcastOps(AfterDisable(flags, online), online, false) == []
    decreases |flags|
  {
    if flags != [] {
      var c := |flags| - 1;
      assert AfterDisable(flags, online)[..c] == AfterDisable(flags[..c], online);
      RedisableIsNoop(flags[..c], online);
    }
  }

  /** Rolling back an enable broadcast with a disable broadcast leaves no
      online CPU flagged and every other CPU as it was, whichever CPUs
      failed. */
  lemma RollbackIsAllOrNothing(flags: seq<bool>, online: set<nat>, archFails: set<nat>)
    ensures AfterDisable(AfterEnable(flags, online, archFails), online) == AfterDisable(flags, online)
    ensures (forall c :: 0 <= c < |flags| ==> !flags[c]) ==>
      AfterDisable(AfterEnable(flags, online, archFails), online) == flags
  {
  }

  class Vac {
    /** kvm_usage_count */
    var usageCount: int
    /** kvm_rebooting */
    var rebooting: bool
    /** cpu_online_mask: the CPUs the hotplug core has brought online. A CPU
        joins it before kvm_online_cpu runs and leaves it after
        kvm_offline_cpu has run. */
    var online: set<nat>
    /** The per-CPU `hardware_enabled` flags, indexed by CPU id. */
    const hardwareEnabled: array<bool>
    /** Every call into the architecture's enable and disable, in order. */
    ghost var archLog: seq<ArchOp>

    /** The usage count never goes negative, no offline CPU has
        virtualization enabled, and with no users no CPU has. */
    ghost predicate Valid()
      reads this, hardwareEnabled
    {
      && usageCount >= 0
      && (forall c :: 0 <= c < hardwareEnabled.Length && c !in online ==> !hardwareEnabled[c])
      && Quiescent()
    }

    /** With no users, no CPU has virtualization enabled. */
    ghost predicate Quiescent()
      reads this, hardwareEnabled
    {
      usageCount == 0 ==> forall c :: 0 <= c < hardwareEnabled.Length ==> !hardwareEnabled[c]
    }

    /** Static initialisation: no users, not rebooting, no CPU enabled; the
        CPUs in `online` are up. */
    constructor (nrCpus: nat, online: set<nat>)
      ensures Valid()
      ensures usageCount == 0 && !rebooting && archLog == [] && this.online == online
      ensures fresh(hardwareEnabled) && hardwareEnabled.Length == nrCpus
      ensures forall c :: 0 <= c < nrCpus ==> !hardwareEnabled[c]
    {
      usageCount := 0;
      rebooting := false;
      this.online := online;
      hardwareEnabled := new bool[nrCpus](_ => false);
      archLog := [];
    }

    /** What __hardware_enable_nolock does on `cpu`: nothing when the CPU is
        already enabled; otherwise one architecture enable, after which the
        flag is set exactly when it succeeded; the result is 0 or -EIO. */
    twostate predicate EnabledLocally(cpu: nat, archFails: set<nat>, r: int)
      requires cpu < hardwareEnabled.Length
      reads this, hardwareEnabled
    {
      && (old(hardwareEnabled[cpu]) ==> r == 0 && archLog == old(archLog))
      && (!old(hardwareEnabled[cpu]) ==>
            && archLog == old(archLog) + [ArchEnable(cpu)]
            && r == (if cpu in archFails then -EIO else 0))
      && hardwareEnabled[..] == old(hardwareEnabled[..])[cpu := r == 0]
    }

    /** What hardware_disable_nolock does on `cpu`: nothing when the CPU is
        not enabled; otherwise one architecture disable and the flag is
        cleared. */
    twostate predicate DisabledLocally(cpu: nat)
      requires cpu < hardwareEnabled.Length
      reads this, hardwareEnabled
    {
      && archLog == old(archLog) + (if old(hardwareEnabled[cpu]) then [ArchDisable(cpu)] else [])
      && hardwareEnabled[..] == old(hardwareEnabled[..])[cpu := false]
    }

    /** __hardware_enable_nolock, run on `cpu`. */
    method HardwareEnableLocal(cpu: nat, archFails: set<nat>) returns (r: int)
      requires cpu < hardwareEnabled.Length
      modifies hardwareEnabled, this`archLog
      ensures EnabledLocally(cpu, archFails, r)
      ensures hardwareEnabled[cpu] <==> r == 0
    {
      if hardwareEnabled[cpu] {
        return 0;
      }
      archLog := archLog + [ArchEnable(cpu)];
      if cpu in archFails {
        return -EIO;
      }
      hardwareEnabled[cpu] := true;
      r := 0;
    }

    /** hardware_enable_nolock: the broadcast callback, which counts a
        failed enable in `failed`. */
    method HardwareEnableNolock(cpu: nat, archFails: set<nat>, failed: nat) returns (failed': nat)
      requires cpu < hardwareEnabled.Length
      modifies hardwareEnabled, this`archLog
      ensures exists r :: EnabledLocally(cpu, archFails, r) && failed' == failed + (if r != 0 then 1 else 0)
      ensures failed' == failed + (if !old(hardwareEnabled[cpu]) && cpu in archFails then 1 else 0)
    {
      var r := HardwareEnableLocal(cpu, archFails);
      failed' := if r != 0 then failed + 1 else failed;
    }

    /** hardware_disable_nolock, run on `cpu`; it cannot fail. */
    method HardwareDisableNolock(cpu: nat)
      requires cpu < hardwareEnabled.Length
      modifies hardwareEnabled, this`archLog
      ensures DisabledLocally(cpu)
    {
      if !hardwareEnabled[cpu] {
        return;
      }
      archLog := archLog + [ArchDisable(cpu)];
      hardwareEnabled[cpu] := false;
    }

    /** on_each_cpu(hardware_enable_nolock, &failed, 1). */
    method BroadcastEnable(archFails: set<nat>) returns (failed: nat)
      modifies hardwareEnabled, this`archLog
      ensures hardwareEnabled[..] == AfterEnable(old(hardwareEnabled[..]), online, archFails)
      ensures archLog == old(archLog) + BroadcastOps(old(hardwareEnabled[..]), online, true)
      ensures failed > 0 <==>
        exists c :: 0 <= c < hardwareEnabled.Length && c in online && !old(hardwareEnabled[c]) && c in archFails
    {
      ghost var flags0 := hardwareEnabled[..];
      failed := 0;
      for c := 0 to hardwareEnabled.Length
        invariant forall k :: 0 <= k < c ==> hardwareEnabled[k] == (flags0[k] || (k in online && k !in archFails))
        invariant forall k :: c <= k < hardwareEnabled.Length ==> hardwareEnabled[k] == flags0[k]
        invariant archLog == old(archLog) + BroadcastOps(flags0[..c], online, true)
        invariant failed > 0 <==> exists k :: 0 <= k < c && k in online && !flags0[k] && k in archFails
      {
        assert flags0[..c + 1][..c] == flags0[..c];
        if c in online {
          failed := HardwareEnableNolock(c, archFails, failed);
        }
      }
      assert flags0[..hardwareEnabled.Length] == flags0;
    }

    /** on_each_cpu(hardware_disable_nolock, NULL, 1). */
    method BroadcastDisable()
      modifies hardwareEnabled, this`archLog
      ensures hardwareEnabled[..] == AfterDisable(old(hardwareEnabled[..]), online)
      ensures archLog == old(archLog) + BroadcastOps(old(hardwareEnabled[..]), online, false)
    {
      ghost var flags0 := hardwareEnabled[..];
      for c := 0 to hardwareEnabled.Length
        invariant forall k :: 0 <= k < c ==> hardwareEnabled[k] == (flags0[k] && k !in online)
        invariant forall k :: c <= k < hardwareEnabled.Length ==> hardwareEnabled[k] == flags0[k]
        invariant archLog == old(archLog) + BroadcastOps(flags0[..c], online, false)
      {
        assert flags0[..c + 1][..c] == flags0[..c];
        if c in online {
          HardwareDisableNolock(c);
        }
      }
      assert flags0[..hardwareEnabled.Length] == flags0;
    }

    /** kvm_online_cpu, run once `cpu` has joined the online mask: enables
        it only while there are users, and returns that CPU's enable error;
        the count is untouched. */
    method OnlineCpu(cpu: nat, archFails: set<nat>) returns (r: int)
      requires Valid() && cpu < hardwareEnabled.Length
      modifies this`online, hardwareEnabled, this`archLog
      ensures Valid()
      ensures online == old(online) + {cpu}
      ensures usageCount == 0 ==> r == 0 && unchanged(hardwareEnabled) && archLog == old(archLog)
      ensures usageCount != 0 ==> EnabledLocally(cpu, archFails, r)
    {
      online := online + {cpu};
      r := 0;
      if usageCount != 0 {
        r := HardwareEnableLocal(cpu, archFails);
      }
    }

    /** kvm_offline_cpu, run before `cpu` leaves the online mask: disables
        it only while there are users, and always succeeds; the count is
        untouched. Either way the CPU leaves with virtualization off. */
    method OfflineCpu(cpu: nat) returns (r: int)
      requires Valid() && cpu < hardwareEnabled.Length
      modifies this`online, hardwareEnabled, this`archLog
      ensures Valid()
      ensures r == 0 && online == old(online) - {cpu} && !hardwareEnabled[cpu]
      ensures usageCount == 0 ==> unchanged(hardwareEnabled) && archLog == old(archLog)
      ensures usageCount != 0 ==> DisabledLocally(cpu)
    {
      if usageCount != 0 {
        HardwareDisableNolock(cpu);
      }
      online := online - {cpu};
      r := 0;
    }

    /** What hardware_disable_all_nolock does: one user fewer; on the 1 -> 0
        edge every online CPU is disabled. */
    twostate predicate DisabledAll()
      reads this, hardwareEnabled
    {
      && usageCount == old(usageCount) - 1
      && rebooting == old(rebooting) && online == old(online)
      && (usageCount > 0 ==> hardwareEnabled[..] == old(hardwareEnabled[..]) && archLog == old(archLog))
      && (usageCount == 0 ==>
            && hardwareEnabled[..] == AfterDisable(old(hardwareEnabled[..]), online)
            && archLog == old(archLog) + BroadcastOps(old(hardwareEnabled[..]), online, false))
    }

    /** hardware_disable_all_nolock; its BUG_ON makes a positive count the
        caller's obligation. The last user leaves no CPU enabled. */
    method HardwareDisableAllNolock()
      requires Valid() && usageCount > 0
      modifies this, hardwareEnabled
      ensures Valid()
      ensures DisabledAll()
      ensures usageCount == 0 ==> forall c :: 0 <= c < hardwareEnabled.Length ==> !hardwareEnabled[c]
    {
      ghost var flags0 := hardwareEnabled[..];
      usageCount := usageCount - 1;
      if usageCount == 0 {
        BroadcastDisable();
        assert forall c :: 0 <= c < hardwareEnabled.Length ==>
          hardwareEnabled[c] == (flags0[c] && c !in online);
      }
    }

    /** hardware_disable_all: the same under the hotplug and usage locks. */
    method HardwareDisableAll()
      requires Valid() && usageCount > 0
      modifies this, hardwareEnabled
      ensures Valid()
      ensures DisabledAll()
      ensures usageCount == 0 ==> forall c :: 0 <= c < hardwareEnabled.Length ==> !hardwareEnabled[c]
    {
      HardwareDisableAllNolock();
    }

    /** hardware_enable_all: one user more; on the 0 -> 1 edge every online
        CPU is enabled, and if any of them fails the whole call is rolled
        back and returns -EBUSY. */
    method HardwareEnableAll(archFails: set<nat>) returns (r: int)
      requires Valid()
      modifies this, hardwareEnabled
      ensures Valid() && rebooting == old(rebooting) && online == old(online)
      ensures r == 0 || r == -EBUSY
      ensures usageCount == if r == 0 then old(usageCount) + 1 else old(usageCount)
      ensures old(usageCount) > 0 ==>
        r == 0 && hardwareEnabled[..] == old(hardwareEnabled[..]) && archLog == old(archLog)
      ensures old(usageCount) == 0 ==>
        (r == 0 <==> forall c :: 0 <= c < hardwareEnabled.Length && c in online ==> c !in archFails)
      ensures old(usageCount) == 0 && r == 0 ==>
        && (forall c :: 0 <= c < hardwareEnabled.Length ==> hardwareEnabled[c] == (c in online))
        && archLog == old(archLog) + BroadcastOps(old(hardwareEnabled[..]), online, true)
      ensures r != 0 ==>
        && usageCount == 0
        && hardwareEnabled[..] == old(hardwareEnabled[..])
        && archLog == old(archLog) + BroadcastOps(old(hardwareEnabled[..]), online, true)
             + BroadcastOps(AfterEnable(old(hardwareEnabled[..]), online, archFails), online, false)
    {
      ghost var flags0 := hardwareEnabled[..];
      r := 0;
      usageCount := usageCount + 1;
      if usageCount == 1 {
        var failed := BroadcastEnable(archFails);
        assert forall c :: 0 <= c < hardwareEnabled.Length ==>
          hardwareEnabled[c] == (flags0[c] || (c in online && c !in archFails));
        if failed != 0 {
          HardwareDisableAllNolock();
          r := -EBUSY;
          RollbackIsAllOrNothing(flags0, online, archFails);
        }
      }
    }

    /** kvm_reboot: disables every online CPU whatever the count, so that
        no CPU is left enabled. */
    method Reboot() returns (r: int)
      requires Valid()
      modifies this, hardwareEnabled
      ensures Valid() && r == NOTIFY_OK
      ensures rebooting && usageCount == old(usageCount) && online == old(online)
      ensures hardwareEnabled[..] == AfterDisable(old(hardwareEnabled[..]), online)
      ensures forall c :: 0 <= c < hardwareEnabled.Length ==> !hardwareEnabled[c]
      ensures archLog == old(archLog) + BroadcastOps(old(hardwareEnabled[..]), online, false)
    {
      ghost var flags0 := hardwareEnabled[..];
      rebooting := true;
      BroadcastDisable();
      assert forall c :: 0 <= c < hardwareEnabled.Length ==>
        hardwareEnabled[c] == (flags0[c] && c !in online);
      r := NOTIFY_OK;
    }

    /** kvm_suspend, run on `cpu`: disables it while there are users. */
    method Suspend(cpu: nat) returns (r: int)
      requires Valid() && cpu < hardwareEnabled.Length
      modifies hardwareEnabled, this`archLog
      ensures Valid()
      ensures r == 0
      ensures usageCount == 0 ==> unchanged(hardwareEnabled) && archLog == old(archLog)
      ensures usageCount != 0 ==> DisabledLocally(cpu)
    {
      if usageCount != 0 {
        HardwareDisableNolock(cpu);
      }
      r := 0;
    }

    /** kvm_resume, run on `cpu`, which is online: re-enables it while
        there are users; an enable failure is only warned about. */
    method Resume(cpu: nat, archFails: set<nat>)
      requires Valid() && cpu < hardwareEnabled.Length && cpu in online
      modifies hardwareEnabled, this`archLog
      ensures Valid()
      ensures usageCount == 0 ==> unchanged(hardwareEnabled) && archLog == old(archLog)
      ensures usageCount != 0 ==> exists r :: EnabledLocally(cpu, archFails, r)
    {
      if usageCount != 0 {
        var r := HardwareEnableLocal(cpu, archFails);
      }
    }
  }

  /**
   * Two CPUs, both online. Enabling for one user enables both; taking CPU 1
   * offline disables it; when the last user leaves, neither is enabled.
   */
  method OfflineThenDisableAllScenario() returns (both: bool, afterOffline: bool, none: bool)
    ensures both && !afterOffline && none
  {
    var v := new Vac(2, {0, 1});
    var r := v.HardwareEnableAll({});
    both := v.hardwareEnabled[0] && v.hardwareEnabled[1];
    var _ := v.OfflineCpu(1);
    afterOffline := v.hardwareEnabled[1];
    v.HardwareDisableAll();
    none := !v.hardwareEnabled[0] && !v.hardwareEnabled[1];
  }
}
