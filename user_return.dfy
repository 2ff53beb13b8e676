/**
 * The user-return MSR registry: a global, append-only list of at most
 * KVM_MAX_NR_USER_RETURN_MSRS register ids, and per CPU a `(host, curr)`
 * pair for every slot plus a `registered` flag saying whether the CPU's
 * user-return notifier is armed. A guest value may stay loaded in a
 * register until the CPU returns to user mode; the notifier then writes
 * back the host value of every slot that drifted.
 *
 * The CPU that runs an operation is an explicit `cpu` index, and its MSRs
 * are the `hw` bank passed alongside. Arming and disarming the notifier
 * chain is represented by the `registered` flag alone.
 */
module UserReturn {
  import opened Kernel
  import opened Msr

  /** KVM_MAX_NR_USER_RETURN_MSRS */
  const KVM_MAX_NR_USER_RETURN_MSRS: nat := 16

  /** struct kvm_user_return_msr_values */
  datatype MsrValues = MsrValues(host: bv64, curr: bv64)

  /** The value kvm_set_user_return_msr loads: the bits under `mask` from
      `value`, every other bit from `host`. */
  function Merge(value: bv64, mask: bv64, host: bv64): (v: bv64)
    ensures v & mask == value & mask
    ensures v & !mask == host & !mask
  {
    (value & mask) | (host & !mask)
  }

  /** The lowest index of `msr` in `list`, or -1 when it is absent. */
  function FindIndex(list: seq<u32>, msr: u32): (r: int)
    ensures -1 <= r < |list|
    ensures r >= 0 ==> list[r] == msr && forall j :: 0 <= j < r ==> list[j] != msr
    ensures r < 0 <==> msr !in list
    decreases |list|
  {
    if list == [] then -1
    else if list[0] == msr then 0
    else
      var k := FindIndex(list[1..], msr);
      if k < 0 then -1 else k + 1
  }

  /** The writes the user-return notifier makes over the first `n` slots,
      in slot order: for every slot whose current value drifted from the
      host value, the host value to that slot's register. */
  function RestoreWrites(list: seq<u32>, values: seq<MsrValues>, n: nat): seq<MsrWrite>
    requires n <= |list| && n <= |values|
  {
    if n == 0 then [] else RestoreWrites(list, values, n - 1) + SlotRestore(list[n - 1], values[n - 1])
  }

  /** What the notifier writes for one slot holding `msr`. */
  function SlotRestore(msr: u32, v: MsrValues): seq<MsrWrite>
  {
    if v.host != v.curr then [MsrWrite(msr, v.host)] else []
  }

  /** The notifier writes exactly the drifted slots, each with its host
      value. */
  lemma {:induction false} RestoreWritesExactly(list: seq<u32>, values: seq<MsrValues>, n: nat, w: MsrWrite)
    requires n <= |list| && n <= |values|
    ensures w in RestoreWrites(list, values, n) <==>
      exists i :: 0 <= i < n && values[i].host != values[i].curr && w == MsrWrite(list[i], values[i].host)
  {
    if n != 0 {
      RestoreWritesExactly(list, values, n - 1, w);
      if w in RestoreWrites(list, values, n) && w !in RestoreWrites(list, values, n - 1) {
        assert values[n - 1].host != values[n - 1].curr && w == MsrWrite(list[n - 1], values[n - 1].host);
      }
    }
  }

  /** The notifier makes at most one write per slot, and none at all when
      no slot drifted: running it twice writes nothing the second time. */
  lemma {:induction false} RestoreWritesBound(list: seq<u32>, values: seq<MsrValues>, n: nat)
    requires n <= |list| && n <= |values|
    ensures |RestoreWrites(list, values, n)| <= n
    ensures (forall i :: 0 <= i < n ==> values[i].host == values[i].curr) ==>
      RestoreWrites(list, values, n) == []
  {
    if n != 0 {
      RestoreWritesBound(list, values, n - 1);
    }
  }

  /** The slot table once the notifier has handled the first `n` slots:
      those are current at their host value, the rest as they were. */
  function Drained(values: seq<MsrValues>, n: nat): (d: seq<MsrValues>)
    requires n <= |values|
    ensures |d| == |values|
    ensures forall i :: 0 <= i < n ==> d[i] == MsrValues(values[i].host, values[i].host)
    ensures forall i :: n <= i < |values| ==> d[i] == values[i]
  {
    seq(|values|, i requires 0 <= i < |values| => if i < n then MsrValues(values[i].host, values[i].host) else values[i])
  }

  /** Handling slot `n` takes the table from Drained(.., n) to Drained(.., n + 1). */
  lemma DrainedStep(values: seq<MsrValues>, n: nat)
    requires n < |values|
    ensures Drained(values, n)[n := MsrValues(values[n].host, values[n].host)] == Drained(values, n + 1)
  {
  }

  /** One more slot of the notifier's loop: the writes and the register
      file after slot `slot` are those of the first `slot + 1` slots. */
  lemma RestoreWritesStep(regs0: map<u32, bv64>, faults: set<u32>, list: seq<u32>, values: seq<MsrValues>, slot: nat,
                          writes0: seq<MsrWrite>, writes1: seq<MsrWrite>, regs1: map<u32, bv64>,
                          writes2: seq<MsrWrite>, regs2: map<u32, bv64>)
    requires slot < |list| && slot < |values|
    requires writes1 == writes0 + RestoreWrites(list, values, slot)
    requires regs1 == StoreAll(regs0, faults, RestoreWrites(list, values, slot))
    requires writes2 == writes1 + SlotRestore(list[slot], values[slot])
    requires regs2 == StoreAll(regs1, faults, SlotRestore(list[slot], values[slot]))
    ensures writes2 == writes0 + RestoreWrites(list, values, slot + 1)
    ensures regs2 == StoreAll(regs0, faults, RestoreWrites(list, values, slot + 1))
  {
    var done, step := RestoreWrites(list, values, slot), SlotRestore(list[slot], values[slot]);
    assert writes2 == writes0 + (done + step);
    StoreAllAppend(regs0, faults, done, step);
  }

  /** rdmsrl_safe then wrmsrl_safe of the value read: 0 when the register
      can be read and written back, -EIO otherwise. The register file is
      unchanged either way. */
  method ProbeUserReturnMsr(msr: u32, hw: MsrBank) returns (ret: int)
    modifies hw
    ensures ret == 0 || ret == -EIO
    ensures ret == 0 <==> msr in old(hw.regs) && msr !in hw.writeFaults
    ensures hw.regs == old(hw.regs)
    ensures msr in old(hw.regs) ==> hw.writes == old(hw.writes) + [MsrWrite(msr, old(hw.regs)[msr])]
    ensures msr !in old(hw.regs) ==> hw.writes == old(hw.writes)
  {
    var err, val := hw.ReadSafe(msr);
    if err {
      return -EIO;
    }
    err := hw.WriteSafe(msr, val);
    ret := if err then -EIO else 0;
  }

  /** struct kvm_user_return_msrs, one per CPU: the notifier's `registered`
      flag and a `(host, curr)` pair for every slot. */
  class UserReturnMsrs {
    var registered: bool
    const values: array<MsrValues>

    /** The zeroed per-CPU allocation. */
    constructor ()
      ensures !registered && fresh(values)
      ensures values.Length == KVM_MAX_NR_USER_RETURN_MSRS
      ensures forall i :: 0 <= i < values.Length ==> values[i] == MsrValues(0, 0)
    {
      registered := false;
      values := new MsrValues[KVM_MAX_NR_USER_RETURN_MSRS](_ => MsrValues(0, 0));
    }
  }

  class Registry {
    /** kvm_uret_msrs_list */
    const msrsList: array<u32>
    /** kvm_nr_uret_msrs */
    var nrMsrs: nat
    /** user_return_msrs, indexed by CPU id. */
    const userReturnMsrs: seq<UserReturnMsrs>

    /** The list and every CPU's table have KVM_MAX_NR_USER_RETURN_MSRS
        entries, at most that many slots are in use, and no two CPUs share
        their state. */
    ghost predicate Valid()
      reads this
    {
      && msrsList.Length == KVM_MAX_NR_USER_RETURN_MSRS
      && nrMsrs <= KVM_MAX_NR_USER_RETURN_MSRS
      && (forall c :: 0 <= c < |userReturnMsrs| ==>
            userReturnMsrs[c].values.Length == KVM_MAX_NR_USER_RETURN_MSRS)
      && (forall c, d :: 0 <= c < d < |userReturnMsrs| ==>
            userReturnMsrs[c] != userReturnMsrs[d] && userReturnMsrs[c].values != userReturnMsrs[d].values)
    }

    /** While a CPU's notifier is disarmed, none of its slots in use has a
        restore pending. */
    ghost predicate Restored(cpu: nat)
      requires Valid() && cpu < |userReturnMsrs|
      reads this, userReturnMsrs[cpu], userReturnMsrs[cpu].values
    {
      var msrs := userReturnMsrs[cpu];
      !msrs.registered ==> forall i :: 0 <= i < nrMsrs ==> msrs.values[i].host == msrs.values[i].curr
    }

    /** Static initialisation: an empty list and zeroed per-CPU state. */
    constructor (nrCpus: nat)
      ensures Valid() && nrMsrs == 0 && |userReturnMsrs| == nrCpus
      ensures fresh(msrsList)
      ensures forall c :: 0 <= c < nrCpus ==> fresh(userReturnMsrs[c]) && fresh(userReturnMsrs[c].values)
      ensures forall c :: 0 <= c < nrCpus ==> !userReturnMsrs[c].registered
      ensures forall c, i :: 0 <= c < nrCpus && 0 <= i < KVM_MAX_NR_USER_RETURN_MSRS ==>
        userReturnMsrs[c].values[i] == MsrValues(0, 0)
    {
      var pcs: seq<UserReturnMsrs> := [];
      while |pcs| < nrCpus
        invariant |pcs| <= nrCpus
        invariant forall c :: 0 <= c < |pcs| ==> fresh(pcs[c]) && fresh(pcs[c].values) && !pcs[c].registered
        invariant forall c :: 0 <= c < |pcs| ==> pcs[c].values.Length == KVM_MAX_NR_USER_RETURN_MSRS
        invariant forall c, i :: 0 <= c < |pcs| && 0 <= i < KVM_MAX_NR_USER_RETURN_MSRS ==>
          pcs[c].values[i] == MsrValues(0, 0)
        invariant forall c, d :: 0 <= c < d < |pcs| ==> pcs[c] != pcs[d] && pcs[c].values != pcs[d].values
      {
        var msrs := new UserReturnMsrs();
        pcs := pcs + [msrs];
      }
      msrsList := new u32[KVM_MAX_NR_USER_RETURN_MSRS](_ => 0);
      nrMsrs := 0;
      userReturnMsrs := pcs;
    }

    /** kvm_is_supported_user_return_msr: `msr` is among the slots in use. */
    predicate IsSupportedUserReturnMsr(msr: u32)
      requires Valid()
      reads this, msrsList
      ensures IsSupportedUserReturnMsr(msr) <==> exists i :: 0 <= i < nrMsrs && msrsList[i] == msr
    {
      FindIndex(msrsList[..nrMsrs], msr) >= 0
    }

    /** kvm_find_user_return_msr: the lowest slot in use holding `msr`, or
        -1; changes nothing. */
    method FindUserReturnMsr(msr: u32) returns (r: int)
      requires Valid()
      ensures -1 <= r < nrMsrs
      ensures r >= 0 ==> msrsList[r] == msr && forall j :: 0 <= j < r ==> msrsList[j] != msr
      ensures r == -1 <==> forall j :: 0 <= j < nrMsrs ==> msrsList[j] != msr
      ensures r == FindIndex(msrsList[..nrMsrs], msr)
      ensures r >= 0 <==> IsSupportedUserReturnMsr(msr)
    {
      for i := 0 to nrMsrs
        invariant forall j :: 0 <= j < i ==> msrsList[j] != msr
      {
        if msrsList[i] == msr {
          return i;
        }
      }
      return -1;
    }

    /** kvm_add_user_return_msr: the BUG_ON makes a free slot the caller's
        obligation. A register that fails the probe is refused with -1;
        otherwise it is appended and its slot returned. There is no
        duplicate check. */
    method AddUserReturnMsr(msr: u32, hw: MsrBank) returns (r: int)
      requires Valid() && nrMsrs < KVM_MAX_NR_USER_RETURN_MSRS
      modifies this, msrsList, hw
      ensures Valid()
      ensures r == -1 <==> !(msr in old(hw.regs) && msr !in hw.writeFaults)
      ensures r == -1 ==> nrMsrs == old(nrMsrs) && msrsList[..] == old(msrsList[..])
      ensures r != -1 ==>
        && r == old(nrMsrs)
        && nrMsrs == old(nrMsrs) + 1
        && msrsList[..] == old(msrsList[..])[r := msr]
        && IsSupportedUserReturnMsr(msr)
      ensures hw.regs == old(hw.regs)
    {
      var err := ProbeUserReturnMsr(msr, hw);
      if err != 0 {
        return -1;
      }
      msrsList[nrMsrs] := msr;
      r := nrMsrs;
      nrMsrs := nrMsrs + 1;
      assert msrsList[..nrMsrs][r] == msr;
    }

    /** kvm_set_user_return_msr on `cpu`: loads the merged value unless it
        is already current; 1 when the write faults, 0 otherwise. A
        successful write arms the notifier, once. */
    method SetUserReturnMsr(cpu: nat, slot: nat, value: bv64, mask: bv64, hw: MsrBank) returns (r: int)
      requires Valid() && cpu < |userReturnMsrs| && slot < KVM_MAX_NR_USER_RETURN_MSRS
      modifies userReturnMsrs[cpu], userReturnMsrs[cpu].values, hw
      ensures r == 0 || r == 1
      ensures var msrs := userReturnMsrs[cpu];
        var v := Merge(value, mask, old(msrs.values[slot]).host);
        && (v == old(msrs.values[slot]).curr ==>
              r == 0 && unchanged(msrs, msrs.values) && hw.writes == old(hw.writes) && hw.regs == old(hw.regs))
        && (v != old(msrs.values[slot]).curr ==>
              && hw.writes == old(hw.writes) + [MsrWrite(msrsList[slot], v)]
              && hw.regs == Store(old(hw.regs), hw.writeFaults, MsrWrite(msrsList[slot], v))
              && (r == 1 <==> msrsList[slot] !in old(hw.regs) || msrsList[slot] in hw.writeFaults))
        && (r == 1 ==> unchanged(msrs, msrs.values))
        && (v != old(msrs.values[slot]).curr && r == 0 ==>
              && msrs.values[..] == old(msrs.values[..])[slot := MsrValues(old(msrs.values[slot]).host, v)]
              && msrs.registered)
      ensures old(Restored(cpu)) ==> Restored(cpu)
    {
      var msrs := userReturnMsrs[cpu];
      var v := Merge(value, mask, msrs.values[slot].host);
      if v == msrs.values[slot].curr {
        return 0;
      }
      var err := hw.WriteSafe(msrsList[slot], v);
      if err {
        return 1;
      }
      msrs.values[slot] := msrs.values[slot].(curr := v);
      if !msrs.registered {
        msrs.registered := true;
      }
      r := 0;
    }

    /** kvm_on_user_return on `cpu`: disarms the notifier and writes the
        host value back to every slot in use that drifted. */
    method OnUserReturn(cpu: nat, hw: MsrBank)
      requires Valid() && cpu < |userReturnMsrs|
      modifies userReturnMsrs[cpu], userReturnMsrs[cpu].values, hw
      ensures var msrs := userReturnMsrs[cpu];
        && !msrs.registered
        && (forall i :: 0 <= i < nrMsrs ==>
              msrs.values[i] == MsrValues(old(msrs.values[i]).host, old(msrs.values[i]).host))
        && (forall i :: nrMsrs <= i < msrs.values.Length ==> msrs.values[i] == old(msrs.values[i]))
        && hw.writes == old(hw.writes) + RestoreWrites(msrsList[..], old(msrs.values[..]), nrMsrs)
        && hw.regs == StoreAll(old(hw.regs), hw.writeFaults, RestoreWrites(msrsList[..], old(msrs.values[..]), nrMsrs))
      ensures Restored(cpu)
    {
      var msrs := userReturnMsrs[cpu];
      if msrs.registered {
        msrs.registered := false;
      }
      RestoreSlots(msrs.values, msrsList, nrMsrs, hw);
    }
  }

  /** The notifier's loop over the first `n` slots: every one of them ends
      current at its host value, the others keep theirs, and the writes
      made are exactly RestoreWrites. */
  method RestoreSlots(values: array<MsrValues>, list: array<u32>, n: nat, hw: MsrBank)
    requires n <= values.Length && n <= list.Length
    modifies values, hw
    ensures values[..] == Drained(old(values[..]), n)
    ensures hw.Wrote(RestoreWrites(list[..], old(values[..]), n))
  {
    ghost var values0, ls := values[..], list[..];
    ghost var writes0, regs0 := hw.writes, hw.regs;
    for slot := 0 to n
      invariant values[..] == Drained(values0, slot)
      invariant hw.writes == writes0 + RestoreWrites(ls, values0, slot)
      invariant hw.regs == StoreAll(regs0, hw.writeFaults, RestoreWrites(ls, values0, slot))
    {
      ghost var writes1, regs1 := hw.writes, hw.regs;
      RestoreSlot(values, slot, list[slot], hw);
      RestoreWritesStep(regs0, hw.writeFaults, ls, values0, slot, writes0, writes1, regs1, hw.writes, hw.regs);
      DrainedStep(values0, slot);
    }
  }

  /** One step of the notifier: write the host value back to `msr` when
      `slot` drifted from it, and mark the slot current. */
  method RestoreSlot(values: array<MsrValues>, slot: nat, msr: u32, hw: MsrBank)
    requires slot < values.Length
    modifies values, hw
    ensures values[..] == old(values[..])[slot := MsrValues(old(values[slot]).host, old(values[slot]).host)]
    ensures hw.Wrote(SlotRestore(msr, old(values[slot])))
  {
    var v := values[slot];
    if v.host != v.curr {
      hw.Write(msr, v.host);
      values[slot] := v.(curr := v.host);
    }
  }

  /** The deferred-restore scenario: register X, load 0xAB under mask 0xFF
      over a host value of 0, then return to user mode. */
  method DeferredRestoreScenario(x: u32) returns (slot: int, loaded: bv64, armed: bool, restored: bv64, disarmed: bool)
    ensures slot == 0 && loaded == 0xAB && armed
    ensures restored == 0 && disarmed
  {
    var hw := new MsrBank(map[x := 0], {});
    var registry := new Registry(1);
    slot := registry.AddUserReturnMsr(x, hw);
    assert registry.msrsList[0] == x;
    assert Merge(0xAB, 0xFF, 0) == 0xAB;
    var r := registry.SetUserReturnMsr(0, slot as nat, 0xAB, 0xFF, hw);
    loaded := hw.regs[x];
    armed := registry.userReturnMsrs[0].registered;
    ghost var values := registry.userReturnMsrs[0].values[..];
    assert values[0] == MsrValues(0, 0xAB);
    ghost var regs := hw.regs;
    assert RestoreWrites(registry.msrsList[..], values, 1) == [MsrWrite(x, 0)];
    registry.OnUserReturn(0, hw);
    assert hw.regs == Store(regs, {}, MsrWrite(x, 0));
    restored := hw.regs[x];
    disarmed := !registry.userReturnMsrs[0].registered;
  }
}
