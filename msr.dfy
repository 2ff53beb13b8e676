/**
 * The model-specific registers (MSRs) of one CPU, as the code under model
 * sees them through rdmsrl_safe/wrmsrl_safe and their unchecked forms.
 * Which registers exist and which reject writes are oracles fixed when the
 * bank is built; every attempted write is recorded in a ghost log.
 */
module Msr {
  import opened Kernel

  /** One attempted write of `value` to register `msr`. */
  datatype MsrWrite = MsrWrite(msr: u32, value: bv64)

  /** What an unchecked read of `m` returns from the register file `regs`:
      the fault fixup yields zero for a missing register. */
  function Value(regs: map<u32, bv64>, m: u32): bv64
  {
    if m in regs then regs[m] else 0
  }

  /** The register file after one attempted write: a missing register or
      one whose writes fault keeps its contents. */
  function Store(regs: map<u32, bv64>, faults: set<u32>, w: MsrWrite): (r: map<u32, bv64>)
    ensures r.Keys == regs.Keys
    ensures forall m :: m in regs && m != w.msr ==> r[m] == regs[m]
    ensures w.msr in regs ==> r[w.msr] == (if w.msr in faults then regs[w.msr] else w.value)
  {
    if w.msr in regs && w.msr !in faults then regs[w.msr := w.value] else regs
  }

  /** The register file after a sequence of attempted writes, in order. */
  function StoreAll(regs: map<u32, bv64>, faults: set<u32>, ws: seq<MsrWrite>): map<u32, bv64>
    decreases |ws|
  {
    if ws == [] then regs
    else Store(StoreAll(regs, faults, ws[..|ws| - 1]), faults, ws[|ws| - 1])
  }

  /** Writing once more applies that write last. */
  lemma StoreAllSnoc(regs: map<u32, bv64>, faults: set<u32>, ws: seq<MsrWrite>, w: MsrWrite)
    ensures StoreAll(regs, faults, ws + [w]) == Store(StoreAll(regs, faults, ws), faults, w)
  {
    assert (ws + [w])[..|ws|] == ws;
  }

  /** Writing `a` then `b` is writing `a + b`. */
  lemma {:induction false} StoreAllAppend(regs: map<u32, bv64>, faults: set<u32>, a: seq<MsrWrite>, b: seq<MsrWrite>)
    ensures StoreAll(regs, faults, a + b) == StoreAll(StoreAll(regs, faults, a), faults, b)
    decreases |b|
  {
    if b == [] {
      assert a + b == a;
    } else {
      var b' := b[..|b| - 1];
      StoreAllAppend(regs, faults, a, b');
      assert (a + b)[..|a + b| - 1] == a + b';
      assert (a + b)[|a + b| - 1] == b[|b| - 1];
    }
  }

  /** Writes keep the set of registers, and a register that no write names
      keeps its value. */
  lemma {:induction false} StoreAllFrame(regs: map<u32, bv64>, faults: set<u32>, ws: seq<MsrWrite>, m: u32)
    requires forall k :: 0 <= k < |ws| ==> ws[k].msr != m
    ensures StoreAll(regs, faults, ws).Keys == regs.Keys
    ensures m in regs ==> StoreAll(regs, faults, ws)[m] == regs[m]
    decreases |ws|
  {
    if ws != [] {
      StoreAllFrame(regs, faults, ws[..|ws| - 1], m);
    }
  }

  /** The MSRs of one CPU. */
  class MsrBank {
    var regs: map<u32, bv64>
    const writeFaults: set<u32>
    /** Every write attempted on this CPU, in order, faulting or not. */
    ghost var writes: seq<MsrWrite>

    constructor (initial: map<u32, bv64>, faults: set<u32>)
      ensures regs == initial && writeFaults == faults && writes == []
    {
      regs := initial;
      writeFaults := faults;
      writes := [];
    }

    /** Between the pre-state and now, exactly the writes `ws` were
        attempted, and the registers show their effect. */
    twostate predicate Wrote(ws: seq<MsrWrite>)
      reads this
    {
      writes == old(writes) + ws && regs == StoreAll(old(regs), writeFaults, ws)
    }

    /** rdmsrl_safe: true when the read faults, which it does exactly on a
        missing register; the value read, zero on a fault. */
    method ReadSafe(m: u32) returns (err: bool, v: bv64)
      ensures err <==> m !in regs
      ensures v == Value(regs, m)
    {
      err := m !in regs;
      v := Value(regs, m);
    }

    /** rdmsrl: an unchecked read; the fault fixup yields zero. */
    function Read(m: u32): bv64
      reads this
    {
      Value(regs, m)
    }

    /** wrmsrl_safe: returns true when the write faults. */
    method WriteSafe(m: u32, v: bv64) returns (err: bool)
      modifies this`regs, this`writes
      ensures err <==> m !in old(regs) || m in writeFaults
      ensures writes == old(writes) + [MsrWrite(m, v)]
      ensures regs == Store(old(regs), writeFaults, MsrWrite(m, v))
      ensures !err ==> regs == old(regs)[m := v]
    {
      err := m !in regs || m in writeFaults;
      if !err {
        regs := regs[m := v];
      }
      writes := writes + [MsrWrite(m, v)];
    }

    /** wrmsrl and native_write_msr_safe with its error ignored: the fault
        fixup swallows a faulting write. */
    method Write(m: u32, v: bv64)
      modifies this`regs, this`writes
      ensures writes == old(writes) + [MsrWrite(m, v)]
      ensures regs == Store(old(regs), writeFaults, MsrWrite(m, v))
    {
      var _ := WriteSafe(m, v);
    }
  }
}
