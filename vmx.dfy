/**
 * The per-CPU VMXON region table of the VMX back end: one `struct vmcs *`
 * per CPU, set and read by CPU id. Regions are opaque addresses; their
 * contents are not part of this model.
 */
module Vmx {
  import opened Kernel

  class VmxAreas {
    /** vmxarea, indexed by CPU id. */
    const vmxarea: array<Ptr>

    /** The zero-initialised per-CPU variable: every CPU starts with NULL. */
    constructor (nrCpus: nat)
      ensures fresh(vmxarea) && vmxarea.Length == nrCpus
      ensures forall c :: 0 <= c < nrCpus ==> vmxarea[c] == NULL
    {
      vmxarea := new Ptr[nrCpus](_ => NULL);
    }

    /** vac_set_vmxarea: `cpu`'s entry becomes `vmcs`; no other CPU's entry
        changes. */
    method SetVmxArea(vmcs: Ptr, cpu: nat)
      requires cpu < vmxarea.Length
      modifies vmxarea
      ensures vmxarea[..] == old(vmxarea[..])[cpu := vmcs]
      ensures vmxarea[cpu] == vmcs
      ensures forall c :: 0 <= c < vmxarea.Length && c != cpu ==> vmxarea[c] == old(vmxarea[c])
    {
      vmxarea[cpu] := vmcs;
    }

    /** vac_get_vmxarea: `cpu`'s entry; changes nothing. */
    method GetVmxArea(cpu: nat) returns (r: Ptr)
      requires cpu < vmxarea.Length
      ensures r == vmxarea[cpu]
    {
      r := vmxarea[cpu];
    }
  }

  /**
   * Two CPUs `c` and `d`: `c` is given region `v` and then region `w`,
   * `d` is never set. Reading back, `c` has the last region set, `d` still
   * has none, and a read changes nothing, so reading `c` twice agrees.
   */
  method VmxAreaScenario(nrCpus: nat, c: nat, d: nat, v: Ptr, w: Ptr)
    returns (first: Ptr, again: Ptr, other: Ptr)
    requires c < nrCpus && d < nrCpus && c != d
    ensures first == w && again == w
    ensures other == NULL
  {
    var areas := new VmxAreas(nrCpus);
    areas.SetVmxArea(v, c);
    areas.SetVmxArea(w, c);
    first := areas.GetVmxArea(c);
    other := areas.GetVmxArea(d);
    again := areas.GetVmxArea(c);
  }
}
