// The register bookkeeping structures, updated in place
// (src/Processor/Component/FreeList.hh, RenameTable.hh, BusyList.hh).
module Components {
  import opened DynInsn
  import opened RcuSpec

  // The first registers of the pool, in the order Reset hands them out: 1, 2, ...
  function Ascending(n: nat): (ps: seq<nat>)
    ensures |ps| == n && forall i :: 0 <= i < n ==> ps[i] == i + 1
  { seq(n, i => i + 1) }

  class FreeList {
    const phyRegCount: nat
    var list: seq<nat>

    // With a zero register the count is one less than the number of registers.
    constructor (regCount: nat)
      requires regCount > 0
      ensures phyRegCount == regCount - 1 && list == []
    {
      phyRegCount := regCount - 1;
      list := [];
    }

    // Appends without clearing, and skips both register 0 and the last register.
    method Reset()
      modifies this
      ensures list == old(list) + Ascending(if phyRegCount == 0 then 0 else phyRegCount - 1)
    {
      var i := 0;
      while i < phyRegCount
        invariant i <= phyRegCount
        invariant list == old(list) + Ascending(if i == 0 then 0 else i - 1)
      {
        if i != 0 {
          list := list + [i];
          assert Ascending(i) == Ascending(i - 1) + [i];
        }
        i := i + 1;
      }
    }

    predicate Empty()
      reads this
    { list == [] }

    predicate Full()
      reads this
    { |list| == phyRegCount }

    function AvailEntryCount(): (n: nat)
      reads this
    { |list| }

    method Pop() returns (t: nat)
      requires !Empty()
      modifies this
      ensures old(list) == [t] + list
    {
      t := list[0];
      list := list[1..];
    }

    method Push(t: nat)
      modifies this
      ensures list == old(list) + [t]
    {
      list := list + [t];
    }
  }

  class RenameTable {
    const alias: array<nat>

    constructor ()
      ensures fresh(alias) && alias.Length == ISA_REGS
    {
      alias := new nat[ISA_REGS];
    }

    method Reset(renameRegister: bool)
      modifies alias
      ensures forall i :: 0 <= i < alias.Length ==> alias[i] == if renameRegister || i == 0 then 0 else i
    {
      var i := 0;
      while i < alias.Length
        invariant i <= alias.Length
        invariant forall j :: 0 <= j < i ==> alias[j] == if renameRegister || j == 0 then 0 else j
      {
        if i != 0 {
          alias[i] := if renameRegister then 0 else i;
        } else {
          alias[i] := 0;
        }
        i := i + 1;
      }
    }
  }

  class BusyList {
    const flags: array<Busy>

    constructor (regCount: nat)
      ensures fresh(flags) && flags.Length == regCount
    {
      flags := new Busy[regCount](_ => Busy(false, false, false));
    }

    // Register 0 is always allocated and ready.
    method Reset(renameRegister: bool)
      modifies flags
      ensures forall i :: 0 <= i < flags.Length ==>
                flags[i] == Busy(i == 0 || !renameRegister, false, i == 0)
    {
      var i := 0;
      while i < flags.Length
        invariant i <= flags.Length
        invariant forall j :: 0 <= j < i ==> flags[j] == Busy(j == 0 || !renameRegister, false, j == 0)
      {
        if i != 0 {
          flags[i] := Busy(!renameRegister, false, false);
        } else {
          flags[i] := Busy(true, false, true);
        }
        i := i + 1;
      }
    }
  }
}
