// The reorder/rename unit, updated in place (src/Processor/Component/Rcu.cc), proved
// against RcuSpec.
module RcuUnit {
  import opened DynInsn
  import opened LoopQueue
  import L = LsqSpec
  import R = RcuSpec
  import opened Components
  import opened Package
  import opened LsqUnit

  // An instruction with the queue slot it was given.
  ghost function Items(pkg: seq<Insn>): (xs: seq<Item>)
    reads Insns(pkg)`lsqTag
    ensures |xs| == |pkg| && forall i :: 0 <= i < |pkg| ==> xs[i] == Item(pkg[i].id, pkg[i].d, pkg[i].lsqTag)
  {
    if pkg == [] then []
    else
      var insn := pkg[|pkg| - 1];
      Items(pkg[..|pkg| - 1]) + [Item(insn.id, insn.d, insn.lsqTag)]
  }

  // The register names of an instruction are those a rename table gives.
  predicate RenamedBy(insn: Insn, table: seq<nat>)
    reads insn`phyRs1, insn`phyRs2, insn`lphyRd
  {
    && insn.d.isaRs1 < |table| && insn.phyRs1 == table[insn.d.isaRs1]
    && insn.d.isaRs2 < |table| && insn.phyRs2 == table[insn.d.isaRs2]
    && insn.d.isaRd < |table| && insn.lphyRd == table[insn.d.isaRd]
  }

  // Successive rename tables, each instruction's target entering the next.
  predicate TableChain(tables: seq<seq<nat>>, ds: seq<Decoded>, targets: seq<nat>) {
    && |tables| == |targets| + 1 && |targets| <= |ds|
    && forall k :: 0 <= k < |targets| ==> ChainLink(tables[k], tables[k + 1], ds[k], targets[k])
  }

  predicate ChainLink(table: seq<nat>, next: seq<nat>, d: Decoded, target: nat) {
    d.isaRd < |table| && next == if d.Writes() then table[d.isaRd := target] else table
  }

  ghost function Targets(pkg: seq<Insn>, n: nat): (ps: seq<nat>)
    requires n <= |pkg|
    reads Insns(pkg)`phyRd
    ensures |ps| == n && forall i :: 0 <= i < n ==> ps[i] == pkg[i].phyRd
  { if n == 0 then [] else Targets(pkg, n - 1) + [pkg[n - 1].phyRd] }

  // The entry CreateRobEntry builds from an instruction.
  ghost function EntryFor(insn: Insn): R.RobEntry
    reads insn`lsqTag, insn`phyRd, insn`lphyRd
  {
    R.RobEntry(insn.id, insn.d, true, insn.d.DoneAtDispatch(), insn.d.DoneAtDispatch(), false, insn.d.excp,
      insn.lsqTag, insn.phyRd, insn.lphyRd)
  }

  method RenamePackage(pkg: seq<Insn>, alias: array<nat>)
    requires alias.Length == ISA_REGS && Distinct(pkg) && forall i :: 0 <= i < |pkg| ==> pkg[i].d.WellDecoded()
    modifies Insns(pkg)`phyRs1, Insns(pkg)`phyRs2, Insns(pkg)`lphyRd
    ensures forall i :: 0 <= i < |pkg| ==> RenamedBy(pkg[i], alias[..])
  {
    for i := 0 to |pkg|
      invariant forall j :: 0 <= j < i ==> RenamedBy(pkg[j], alias[..])
    {
      pkg[i].phyRs1 := alias[pkg[i].d.isaRs1];
      pkg[i].phyRs2 := alias[pkg[i].d.isaRs2];
      pkg[i].lphyRd := alias[pkg[i].d.isaRd];
    }
  }

  // One pair of ResovleDependancy: a later instruction naming the target of an earlier one.
  method FixUp(insn: Insn, laterInsn: Insn, ghost before: seq<nat>)
    requires insn != laterInsn && insn.d.Writes() && laterInsn.d.WellDecoded()
    modifies laterInsn`phyRs1, laterInsn`phyRs2, laterInsn`lphyRd
    ensures old(RenamedBy(laterInsn, before)) && insn.d.isaRd < |before|
      ==> RenamedBy(laterInsn, before[insn.d.isaRd := insn.phyRd])
  {
    if insn.d.rdType == laterInsn.d.rs1Type && insn.d.isaRd == laterInsn.d.isaRs1 {
      laterInsn.phyRs1 := insn.phyRd;
    }
    if insn.d.rdType == laterInsn.d.rs2Type && insn.d.isaRd == laterInsn.d.isaRs2 {
      laterInsn.phyRs2 := insn.phyRd;
    }
    if insn.d.rdType == laterInsn.d.rdType && insn.d.isaRd == laterInsn.d.isaRd {
      laterInsn.lphyRd := insn.phyRd;
    }
  }

  // The pairwise fix-up: whatever chain of tables the targets of the first n instructions
  // give, each of them ends up renamed by the table just before it.
  method ResolvePackage(pkg: seq<Insn>, ghost n: nat, ghost tables: seq<seq<nat>>)
    requires Distinct(pkg) && n <= |pkg| && forall i :: 0 <= i < |pkg| ==> pkg[i].d.WellDecoded()
    requires TableChain(tables, DecodedsOf(pkg), Targets(pkg, n))
    requires forall i :: 0 <= i < n ==> RenamedBy(pkg[i], tables[0])
    modifies Insns(pkg)`phyRs1, Insns(pkg)`phyRs2, Insns(pkg)`lphyRd
    ensures forall i :: 0 <= i < n ==> RenamedBy(pkg[i], tables[i])
  {
    hide RenamedBy, TableChain, Decoded.WellDecoded;
    ghost var ds, ps := DecodedsOf(pkg), Targets(pkg, n);
    assert |tables| == n + 1 by { ChainLength(tables, ds, ps); }
    for i := 0 to |pkg|
      invariant forall j :: 0 <= j < n ==> RenamedBy(pkg[j], tables[if j < i then j else if i < n then i else n])
    {
      var insn := pkg[i];
      if i < n {
        ChainStep(tables, ds, ps, i);
      }
      if insn.d.rdType == INT && insn.d.isaRd != 0 {
        for j := i + 1 to |pkg|
          invariant forall k :: 0 <= k < n ==> RenamedBy(pkg[k], tables[if k <= i then k else if k < j then i + 1 else i])
        {
          FixUp(insn, pkg[j], if i < n then tables[i] else []);
        }
      }
    }
  }

  predicate RaisesIn(rob: Queue<R.RobEntry>, mode: R.RobState, tag: nat, o: R.Outcome) {
    if o.fault.Some? then mode == R.Idle || rob.IsOlder(o.robTag, tag)
    else o.d.fu == BRU && o.misPred && (mode == R.Idle || rob.IsOlder(o.robTag, tag) || o.robTag == tag)
  }

  // Older is nearer to the header.
  lemma RaisesByDistance(r: R.Rcu, o: R.Outcome)
    requires r.Valid() && o.robTag < r.rob.size
    ensures R.Raises(r, o) <==>
      if o.fault.Some? then r.mode == R.Idle || r.rob.Dist(o.robTag) < r.rob.Dist(r.tag)
      else o.d.fu == BRU && o.misPred && (r.mode == R.Idle || r.rob.Dist(o.robTag) <= r.rob.Dist(r.tag))
  {
    OlderIsDistance(r.rob.size, r.rob.head, o.robTag, r.tag);
  }

  function ModeAfter(mode: R.RobState, tag: nat, raises: bool, spec: bool, o: R.Outcome): R.RobState {
    if raises then R.Undo
    else if o.fault.None? && o.d.fu == BRU && !o.misPred && !spec && mode == R.WaitForResume && o.robTag == tag then R.Idle
    else mode
  }

  // Rcu::WriteBack field by field.
  lemma WriteBackParts(r: R.Rcu, spec: bool, o: R.Outcome)
    requires r.Valid() && o.robTag < r.rob.size && o.phyRd < |r.regs|
    ensures |r.busy| == |r.regs|
    ensures var raises := RaisesIn(r.rob, r.mode, r.tag, o);
      && raises == R.Raises(r, o)
      && R.WriteBack(r, spec, o) ==
         if !r.rob.Live(o.robTag) then r
         else r.(rob := r.rob.Update(o.robTag, R.MarkWritten(r.rob.At(o.robTag), o)),
                 mode := ModeAfter(r.mode, r.tag, raises, spec, o),
                 tag := if raises then o.robTag else r.tag,
                 excp := if raises && o.fault.Some? then o.fault.value else r.excp,
                 regs := if o.fault.None? && o.d.Writes() then r.regs[o.phyRd := o.result] else r.regs,
                 busy := if o.fault.None? && o.d.Writes()
                   then r.busy[o.phyRd := r.busy[o.phyRd].(done := true, forwarding := false)] else r.busy)
  {
  }

  class Rcu {
    const rob: LoopQueue<R.RobEntry>
    const intRegfile: array<Val>
    const intRenameTable: RenameTable
    const intBusylist: BusyList
    const intFreelist: FreeList
    const lsq: Lsq
    const speculate: bool
    const allocWidth: nat
    const deallocWidth: nat
    var robState: R.RobState
    var rollBackTag: nat
    var excp: Fault

    ghost function Repr(): set<object> {
      {this, rob, rob.dataVec, intRegfile, intRenameTable.alias, intBusylist.flags, intFreelist} + lsq.Repr()
    }

    ghost predicate Separate(): (ok: bool)
      reads Repr()
      ensures ok ==> rob.Valid() && lsq.Valid()
    {
      && rob.Valid() && lsq.Valid()
      && intRegfile != intRenameTable.alias
      && this as object !in lsq.Repr() && rob as object !in lsq.Repr() && rob.dataVec as object !in lsq.Repr()
      && intRegfile as object !in lsq.Repr() && intRenameTable.alias as object !in lsq.Repr()
      && intBusylist.flags as object !in lsq.Repr() && intFreelist as object !in lsq.Repr()
    }

    ghost function Regs(): (r: R.Rcu)
      reads Repr()
      requires Separate()
      ensures r.rob == rob.View() && |r.regs| == intRegfile.Length && r.table == intRenameTable.alias[..]
    {
      R.Rcu(rob.View(), robState, rollBackTag, excp, intRenameTable.alias[..], intFreelist.list, intBusylist.flags[..],
        intRegfile[..])
    }

    ghost function View(): R.Core
      reads Repr()
      requires Separate()
    {
      R.Core(Regs(), lsq.View())
    }

    ghost predicate Valid(): (ok: bool)
      reads Repr()
      ensures ok ==> Separate() && View().Valid() && Regs().Valid() && intRenameTable.alias.Length == ISA_REGS
    {
      Separate() && View().Valid()
    }

    constructor (robEntryCount: nat, intRegCount: nat, speculate: bool, allocWidth: nat, deallocWidth: nat, lsq: Lsq,
        blank: R.RobEntry)
      requires robEntryCount > 0 && intRegCount > 0 && lsq.Valid()
      ensures fresh(Repr() - lsq.Repr()) && this.lsq == lsq && Separate()
      ensures intRegfile.Length == intBusylist.flags.Length == intRegCount && intRenameTable.alias.Length == ISA_REGS
      ensures intFreelist.list == [] && intFreelist.phyRegCount == intRegCount - 1
      ensures rob.View() == Queue(robEntryCount, 0, []) && forall p :: 0 <= p < intRegCount ==> intRegfile[p] == 0
    {
      rob := new LoopQueue<R.RobEntry>(robEntryCount, blank);
      intRegfile := new Val[intRegCount](_ => 0);
      intRenameTable := new RenameTable();
      intBusylist := new BusyList(intRegCount);
      intFreelist := new FreeList(intRegCount);
      this.lsq, this.speculate, this.allocWidth, this.deallocWidth := lsq, speculate, allocWidth, deallocWidth;
      robState, rollBackTag, excp := R.Idle, 0, Fault(0, 0);
    }

    // The register file keeps its contents (the source clears copies) and the free list is
    // appended to; from a freshly built unit this is the initial state of the machine.
    method Reset(blank: R.RobEntry)
      requires Separate() && intBusylist.flags.Length == intRegfile.Length && intRenameTable.alias.Length == ISA_REGS
      modifies this, rob, rob.dataVec, intRenameTable.alias, intBusylist.flags, intFreelist
      ensures Separate() && lsq.View() == old(lsq.View())
      ensures Regs() == R.Rcu(
        Queue(rob.dataVec.Length, 0, []), R.Idle, 0, excp, seq(ISA_REGS, _ => 0),
        old(intFreelist.list) + Ascending(if intFreelist.phyRegCount == 0 then 0 else intFreelist.phyRegCount - 1),
        seq(intRegfile.Length, p => R.Busy(p == 0, false, p == 0)), old(intRegfile[..]))
    {
      hide LoopQueue.View, LoopQueue.Valid, Lsq.View, Lsq.Valid;
      rob.Reset(blank);
      robState, rollBackTag := R.Idle, 0;
      ResetRegisters();
    }

    method ResetRegisters()
      requires intRenameTable.alias.Length == ISA_REGS
      modifies intRenameTable.alias, intBusylist.flags, intFreelist
      ensures intRenameTable.alias[..] == seq(ISA_REGS, _ => 0)
      ensures intBusylist.flags[..] == seq(intBusylist.flags.Length, p => R.Busy(p == 0, false, p == 0))
      ensures intFreelist.list == old(intFreelist.list) + Ascending(if intFreelist.phyRegCount == 0 then 0
        else intFreelist.phyRegCount - 1)
    {
      intRenameTable.Reset(true);
      intBusylist.Reset(true);
      intFreelist.Reset();
    }

    // ---- allocation -----------------------------------------------------------------------------

    method TryAllocate(pkg: seq<Insn>) returns (successCount: nat)
      requires Valid()
      ensures successCount == R.FitCount(DecodedsOf(pkg), Regs().rob.size - |Regs().rob.elems|, |Regs().free|)
    {
      hide R.Rcu.Valid;
      successCount := 0;
      var allocRobCount, allocRegCount := 0, 0;
      var room := rob.dataVec.Length - rob.usage;
      var free := intFreelist.AvailEntryCount();
      ghost var ds := DecodedsOf(pkg);
      for i := 0 to |pkg|
        invariant successCount == i && allocRobCount <= room && allocRegCount <= free
        invariant R.FitCount(ds, room, free) == i + R.FitCount(ds[i..], room - allocRobCount, free - allocRegCount)
      {
        if room > allocRobCount {
          allocRobCount := allocRobCount + 1;
        } else {
          break;
        }
        if pkg[i].d.rdType == INT && pkg[i].d.isaRd != 0 {
          if free > allocRegCount {
            allocRegCount := allocRegCount + 1;
          } else {
            break;
          }
        }
        successCount := successCount + 1;
        assert ds[i..][1..] == ds[i + 1..];
      }
    }

    // Lsq::Allocate as the dispatch stage calls it; nothing of the reorder unit moves.
    method AllocateQueues(pkg: seq<Insn>, allocCount: nat)
      requires Valid() && Distinct(pkg) && (forall i :: 0 <= i < |pkg| ==> pkg[i].lsqTag == 0)
      requires RoomFor(lsq.View(), Fresh(pkg), allocCount)
      modifies lsq.Repr(), Insns(pkg)`lsqTag
      ensures Valid() && Regs() == old(Regs()) && lsq.View() == QueueMany(old(lsq.View()), Fresh(pkg), allocCount)
      ensures lsq.View().ldq.size == old(lsq.View()).ldq.size && lsq.View().stq.size == old(lsq.View()).stq.size
      ensures forall i :: 0 <= i < |pkg| ==>
        pkg[i].lsqTag == (if i < allocCount then TagOf(old(lsq.View()), Fresh(pkg), allocCount, i) else 0)
          && pkg[i].phyRd == old(pkg[i].phyRd)
    {
      hide QueueMany, TagOf, RoomFor, LoopQueue.View, Lsq.View, R.Rcu.Valid, Kinds;
      lsq.Allocate(pkg, allocCount);
      SizesKeepValid(old(View()), View());
    }

    method Rename(pkg: seq<Insn>)
      requires Valid() && Distinct(pkg) && forall i :: 0 <= i < |pkg| ==> pkg[i].d.WellDecoded()
      modifies Insns(pkg)`phyRs1, Insns(pkg)`phyRs2, Insns(pkg)`lphyRd
      ensures Valid() && Regs() == old(Regs()) && lsq.View() == old(lsq.View())
      ensures forall i :: 0 <= i < |pkg| ==> RenamedBy(pkg[i], intRenameTable.alias[..])
    {
      hide R.Core.Valid, R.Rcu.Valid, RenamedBy, Decoded.WellDecoded, Insns, Distinct, LoopQueue.View,
        LoopQueue.Valid, Lsq.View;
      RenamePackage(pkg, intRenameTable.alias);
    }

    method ResovleDependancy(pkg: seq<Insn>, ghost n: nat, ghost tables: seq<seq<nat>>)
      requires Valid() && Distinct(pkg) && n <= |pkg| && forall i :: 0 <= i < |pkg| ==> pkg[i].d.WellDecoded()
      requires TableChain(tables, DecodedsOf(pkg), Targets(pkg, n))
      requires forall i :: 0 <= i < n ==> RenamedBy(pkg[i], tables[0])
      modifies Insns(pkg)`phyRs1, Insns(pkg)`phyRs2, Insns(pkg)`lphyRd
      ensures Valid() && Regs() == old(Regs()) && lsq.View() == old(lsq.View())
      ensures forall i :: 0 <= i < n ==> RenamedBy(pkg[i], tables[i])
    {
      hide R.Core.Valid, R.Rcu.Valid, RenamedBy, Decoded.WellDecoded, TableChain, Insns, Distinct, Targets,
        LoopQueue.View, LoopQueue.Valid, Lsq.View;
      ResolvePackage(pkg, n, tables);
    }

    // The register half of the first loop of Allocate, for one instruction.
    method TakeRegister(insn: Insn)
      requires Valid() && insn.d.WellDecoded() && R.CanAllocate(Regs(), insn.d) && insn.phyRd == 0
      modifies intFreelist, intBusylist.flags, intRenameTable.alias, insn`phyRd
      ensures Valid() && lsq.View() == old(lsq.View()) && Regs() == R.TakeRegister(old(Regs()), insn.d)
      ensures insn.phyRd == R.RenameOne(old(Regs()), insn.d).phyRd
    {
      hide LoopQueue.View, LoopQueue.Valid, R.Core.Valid, R.Rcu.Valid, Decoded.WellDecoded;
      TakeKeepsValid(View(), insn.d);
      if insn.d.rdType == INT && insn.d.isaRd != 0 {
        insn.phyRd := intFreelist.Pop();
        intBusylist.flags[insn.phyRd] := R.Busy(true, false, false);
        intRenameTable.alias[insn.d.isaRd] := insn.phyRd;
        assert Regs() == R.TakeRegister(old(Regs()), insn.d);
      }
    }

    // Reserving the tail slot and writing the entry into it.
    method EnterRob(insn: Insn, newEntry: R.RobEntry)
      requires rob.Valid() && !rob.View().Full()
      modifies rob, rob.dataVec, insn`robTag
      ensures rob.Valid() && rob.View() == old(rob.View()).Push(newEntry) && insn.robTag == old(rob.View()).Tail()
    {
      hide LoopQueue.View, Queue.Push, Queue.Update;
      ghost var blank := rob.TailData();
      insn.robTag := rob.Allocate();
      PushUpdate(old(rob.View()), blank, newEntry);
      rob.Set(insn.robTag, newEntry);
    }

    method CreateRobEntry(insn: Insn)
      requires Valid() && !Regs().rob.Full() && R.EntryInRange(EntryFor(insn), intRegfile.Length)
      requires R.TagInRange(EntryFor(insn), lsq.View().ldq.size, lsq.View().stq.size)
      modifies this, rob, rob.dataVec, insn`robTag
      ensures Valid() && lsq.View() == old(lsq.View())
      ensures Regs() == R.CreateRobEntry(old(Regs()), old(EntryFor(insn)))
      ensures insn.robTag == old(Regs()).rob.Tail()
    {
      hide LoopQueue.View, LoopQueue.Valid, Queue.Push, Queue.Tail, R.Core.Valid, R.Rcu.Valid, R.TagInRange,
        R.EntryInRange, Lsq.Valid, Lsq.View;
      CreateKeepsValid(View(), EntryFor(insn));
      var isNop := insn.d.fu == ALU && insn.d.isaRd == 0;
      var isFence := insn.d.fu == CSR && insn.d.subOp == CSR_FENCE;
      var isMret := insn.d.fu == CSR && insn.d.subOp == CSR_MRET;
      var done := isNop || insn.d.excp.Some? || isFence || isMret;
      EnterRob(insn, R.RobEntry(insn.id, insn.d, true, done, done, false, insn.d.excp, insn.lsqTag, insn.phyRd, insn.lphyRd));
      assert Separate() && lsq.View() == old(lsq.View());
      if insn.d.excp.Some? {
        robState, rollBackTag, excp := R.Undo, insn.robTag, insn.d.excp.value;
      } else if insn.d.controlFlow {
        robState, rollBackTag := R.Undo, insn.robTag;
        if isMret {
          robState := R.Idle;
        }
      }
      assert Regs() == R.CreateRobEntry(old(Regs()), old(EntryFor(insn)));
    }

    // The first loop of Allocate: the targets are popped in order.
    method TakeRegisters(pkg: seq<Insn>, allocCount: nat)
      requires Valid() && Distinct(pkg) && TakesFit(Regs(), DecodedsOf(pkg), allocCount)
      requires forall i :: 0 <= i < |pkg| ==> pkg[i].phyRd == 0
      modifies intFreelist, intBusylist.flags, intRenameTable.alias, Insns(pkg)`phyRd
      ensures Valid() && lsq.View() == old(lsq.View())
      ensures Regs() == TakeMany(old(Regs()), DecodedsOf(pkg), allocCount)
      ensures forall i :: 0 <= i < allocCount ==> pkg[i].phyRd == TargetAt(old(Regs()), DecodedsOf(pkg), allocCount, i)
    {
      hide R.TakeRegister, TakeMany, TakeAt, TakesFit, TargetAt, R.CanAllocate, R.RenameOne, Separate, Valid, View,
        Regs, Decoded.WellDecoded, R.Core.Valid, R.Rcu.Valid, Lsq.Valid, Lsq.View, LoopQueue.Valid, LoopQueue.View,
        Writers;
      ghost var r0, ds := Regs(), DecodedsOf(pkg);
      TakeNone(r0, ds, allocCount);
      for i := 0 to allocCount
        invariant Separate() && Valid() && lsq.View() == old(lsq.View())
        invariant Regs() == TakeAt(r0, ds, allocCount, i)
        invariant forall j :: 0 <= j < |pkg| ==> pkg[j].phyRd == if j < i then TargetAt(r0, ds, allocCount, j) else 0
      {
        TakeNext(r0, ds, allocCount, i);
        TakeRegister(pkg[i]);
      }
    }

    // The last loop of Allocate.
    method CreateEntries(pkg: seq<Insn>, allocCount: nat, ghost r0: R.Rcu)
      requires Valid() && Distinct(pkg) && TakesFit(r0, Decodeds(Items(pkg)), allocCount) && |r0.regs| == intRegfile.Length > 0
      requires Regs() == TakeMany(r0, Decodeds(Items(pkg)), allocCount)
      requires EntriesReady(pkg, r0, Items(pkg), allocCount, lsq.View())
      modifies this, rob, rob.dataVec, Insns(pkg)`robTag
      ensures Valid() && lsq.View() == old(lsq.View())
      ensures Regs() == AllocateMany(r0, old(Items(pkg)), allocCount)
      ensures SlotsAsSingly(pkg, r0, old(Items(pkg)), allocCount)
    {
      hide Lsq.Valid, Lsq.View, LoopQueue.Valid, LoopQueue.View, Writers, R.CreateRobEntry, TakeMany, TakeAt,
        TakesFit, R.CanAllocate, R.RenameOne, Separate, Valid, View, Regs, Decoded.WellDecoded, R.Core.Valid,
        R.Rcu.Valid, AllocateMany, AllocateAt, Merge, SlotAt, EntryAt, EntryFor, R.TagInRange, R.EntryInRange,
        SameRegisters;
      ghost var xs := Items(pkg);
      ghost var t := TakeMany(r0, Decodeds(xs), allocCount);
      MergeEnds(r0, xs, allocCount);
      for i := 0 to allocCount
        invariant Separate() && Valid() && lsq.View() == old(lsq.View()) && |r0.regs| == intRegfile.Length
        invariant Regs() == Merge(AllocateAt(r0, xs, allocCount, i), t)
        invariant forall j :: 0 <= j < allocCount ==> EntryFor(pkg[j]) == EntryAt(r0, xs, allocCount, j)
        invariant forall j :: 0 <= j < i ==> pkg[j].robTag == SlotAt(r0, xs, allocCount, j)
      {
        MergeNext(r0, xs, allocCount, i);
        CreateRobEntry(pkg[i]);
      }
    }

    // Rename, the pops and ResovleDependancy: each of the first allocCount instructions is
    // renamed by the table its predecessors leave.
    method RenameBatch(pkg: seq<Insn>, allocCount: nat)
      requires Valid() && Distinct(pkg) && TakesFit(Regs(), DecodedsOf(pkg), allocCount)
      requires forall i :: 0 <= i < |pkg| ==> pkg[i].phyRd == 0
      modifies intFreelist, intBusylist.flags, intRenameTable.alias
      modifies Insns(pkg)`phyRs1, Insns(pkg)`phyRs2, Insns(pkg)`phyRd, Insns(pkg)`lphyRd
      ensures Valid() && lsq.View() == old(lsq.View())
      ensures Regs() == TakeMany(old(Regs()), DecodedsOf(pkg), allocCount)
      ensures Renamed(pkg, old(Regs()), DecodedsOf(pkg), allocCount)
    {
      hide TakeMany, TakeAt, TakesFit, R.CanAllocate, R.RenameOne, Separate, Valid, Regs, View, Repr, Lsq.Repr,
        Decoded.WellDecoded, RenamedBy, R.Core.Valid, R.Rcu.Valid, TargetAt, Lsq.Valid, Lsq.View, LoopQueue.Valid,
        LoopQueue.View, Writers, Tables, TableChain;
      ghost var r0, ds := Regs(), DecodedsOf(pkg);
      FitFacts(r0, ds, allocCount);
      Rename(pkg);
      TakeRegisters(pkg, allocCount);
      TablesChain(r0, ds, allocCount, Targets(pkg, allocCount));
      label taken:
      ResovleDependancy(pkg, allocCount, Tables(r0, ds, allocCount));
      assert forall i :: 0 <= i < |pkg| ==> pkg[i].phyRd == old@taken(pkg[i].phyRd);
    }

    // The renamed instructions carry exactly what renaming them singly gives.
    method RenameRows(pkg: seq<Insn>, allocCount: nat)
      requires Valid() && Distinct(pkg) && intRegfile.Length > 0 && TakesFit(Regs(), Decodeds(Items(pkg)), allocCount)
      requires forall i :: 0 <= i < |pkg| ==> pkg[i].phyRd == 0
      requires LsqTagsInRange(pkg, allocCount, lsq.View())
      modifies intFreelist, intBusylist.flags, intRenameTable.alias
      modifies Insns(pkg)`phyRs1, Insns(pkg)`phyRs2, Insns(pkg)`phyRd, Insns(pkg)`lphyRd
      ensures Valid() && lsq.View() == old(lsq.View()) && Items(pkg) == old(Items(pkg))
      ensures Regs() == TakeMany(old(Regs()), Decodeds(Items(pkg)), allocCount)
      ensures EntriesReady(pkg, old(Regs()), Items(pkg), allocCount, lsq.View())
      ensures NamesAsSingly(pkg, old(Regs()), Items(pkg), allocCount)
    {
      hide TakeMany, TakesFit, Separate, Valid, Regs, View, Renamed, EntriesReady, NamesAsSingly,
        R.Core.Valid, R.Rcu.Valid, Lsq.Valid, Lsq.View, LoopQueue.Valid, LoopQueue.View, Writers, Repr, Lsq.Repr;
      ghost var r0, xs, l := Regs(), Items(pkg), lsq.View();
      assert Decodeds(xs) == DecodedsOf(pkg);
      RenameBatch(pkg, allocCount);
      forall i | 0 <= i < |pkg| ensures pkg[i].lsqTag == old(pkg[i].lsqTag) {
        assert pkg[i] as object != intFreelist && pkg[i] as object != intBusylist.flags
          && pkg[i] as object != intRenameTable.alias;
      }
      RowsMatch(pkg, r0, xs, allocCount, l);
    }

    // The whole batch: the state is the one reached by renaming and allocating the first
    // allocCount instructions singly in order, and each of them carries the names, the slot
    // and the target it would have been given then.
    method Allocate(pkg: seq<Insn>, allocCount: nat)
      requires Valid() && Distinct(pkg) && intRegfile.Length > 0 && TakesFit(Regs(), Decodeds(Items(pkg)), allocCount)
      requires forall i :: 0 <= i < |pkg| ==> pkg[i].phyRd == 0
      requires LsqTagsInRange(pkg, allocCount, lsq.View())
      modifies this, rob, rob.dataVec, intFreelist, intBusylist.flags, intRenameTable.alias
      modifies Insns(pkg)`phyRs1, Insns(pkg)`phyRs2, Insns(pkg)`phyRd, Insns(pkg)`lphyRd, Insns(pkg)`robTag
      ensures Valid() && lsq.View() == old(lsq.View())
      ensures Items(pkg) == old(Items(pkg)) && Regs() == AllocateMany(old(Regs()), old(Items(pkg)), allocCount)
      ensures NamesAsSingly(pkg, old(Regs()), old(Items(pkg)), allocCount)
      ensures SlotsAsSingly(pkg, old(Regs()), old(Items(pkg)), allocCount)
    {
      hide Decoded.WellDecoded, TakeMany, TakesFit, Separate, Valid, Regs, View, EntriesReady, SlotsAsSingly,
        LsqTagsInRange, Items, Insns, Decodeds, AllocateAt, R.RenameOne, R.Core.Valid, R.Rcu.Valid, AllocateMany,
        Lsq.Valid, Lsq.View, LoopQueue.Valid, LoopQueue.View, Writers, Repr, Lsq.Repr;
      ghost var r0 := Regs();
      RenameRows(pkg, allocCount);
      label named:
      CreateEntries(pkg, allocCount, r0);
      forall i | 0 <= i < |pkg|
        ensures pkg[i].phyRs1 == old@named(pkg[i].phyRs1) && pkg[i].phyRs2 == old@named(pkg[i].phyRs2)
        ensures pkg[i].phyRd == old@named(pkg[i].phyRd) && pkg[i].lphyRd == old@named(pkg[i].lphyRd)
      {
        assert pkg[i] as object != this && pkg[i] as object != rob && pkg[i] as object != rob.dataVec;
      }
    }

    // ---- write-back ----------------------------------------------------------------------------

    method ReadyForCommit(robTag: nat) returns (ready: bool)
      requires Valid()
      ensures ready == R.ReadyForCommit(Regs(), robTag, deallocWidth)
    {
      hide R.AllBelow, R.EntriesInRange, R.TagsInRange, LoopQueue.View, Lsq.View, Lsq.Valid, Lsq.Repr;
      var robPtr := rob.header;
      if robState == R.Idle || rob.IsOlder(robTag, rollBackTag) {
        var i := 0;
        while i < deallocWidth && i < rob.usage
          invariant i <= rob.usage && Valid() && robPtr == rob.View().Slot(i)
          invariant R.ScanReady(Regs(), robTag, deallocWidth, 0) == R.ScanReady(Regs(), robTag, deallocWidth, i)
        {
          if robPtr == robTag {
            return true;
          }
          var e := rob.Get(robPtr);
          SlotPos(rob.View(), i);
          if !e.isStable && (e.d.fu == LDU || e.d.fu == STU || e.d.fu == BRU) {
            return false;
          }
          robPtr := NextPtr(rob.dataVec.Length, robPtr);
          i := i + 1;
        }
        return false;
      }
      return robState == R.WaitForResume && rollBackTag == robTag;
    }

    method MarkAddress(insn: Insn)
      requires rob.Valid() && insn.robTag < rob.View().size
      modifies rob.dataVec
      ensures rob.Valid()
      ensures var q := old(rob.View());
        rob.View() == if q.Live(insn.robTag) then q.Update(insn.robTag, Addressed(q.At(insn.robTag), insn.d, insn.excp)) else q
    {
      hide LoopQueue.View;
      var e := rob.Get(insn.robTag).(isStable := true);
      if insn.d.fu == STU {
        e := e.(done := true);
      }
      if insn.excp.Some? {
        e := e.(done := true, fault := insn.excp);
      }
      rob.Set(insn.robTag, e);
    }

    method AGUFastDetect(insn: Insn)
      requires Valid() && insn.robTag < Regs().rob.size
      modifies this, rob.dataVec
      ensures Valid() && lsq.View() == old(lsq.View())
      ensures Regs() == R.AguRaise(old(Regs()), insn.d, insn.robTag, insn.excp)
    {
      hide R.Core.Valid, R.Rcu.Valid, R.AguRaise, LoopQueue.View, LoopQueue.Valid, Lsq.View, Lsq.Valid, Addressed;
      AguKeepsValid(View(), insn.d, insn.robTag, insn.excp);
      AguParts(Regs(), insn.d, insn.robTag, insn.excp);
      MarkAddress(insn);
      if insn.excp.Some? && (robState != R.Idle || rob.IsOlder(insn.robTag, rollBackTag)) {
        robState, rollBackTag, excp := R.Undo, insn.robTag, insn.excp.value;
      }
    }

    // Lsq::WriteBack as the load/store unit calls it; nothing of the reorder unit moves.
    method WriteBackLsq(insn: Insn)
      requires Valid()
      requires insn.d.fu == LDU ==> insn.lsqTag < lsq.View().ldq.size
      requires insn.d.fu == STU ==> insn.lsqTag < lsq.View().stq.size
      modifies lsq.loadQueue.dataVec, lsq.storeQueue.dataVec
      ensures Valid() && Regs() == old(Regs())
      ensures lsq.View() == L.WriteBack(old(lsq.View()), insn.d, insn.lsqTag, insn.aguAddr, insn.aguData)
    {
      hide LoopQueue.View, Lsq.View, R.Rcu.Valid, L.WriteBack;
      WriteBackSizes(lsq.View(), insn.d, insn.lsqTag, insn.aguAddr, insn.aguData);
      lsq.WriteBack(insn);
      SizesKeepValid(old(View()), View());
    }

    // A forwarded result is written at once and its register marked ready.
    method Forwarding(insn: Insn)
      requires Valid() && insn.phyRd < intRegfile.Length
      modifies intRegfile, intBusylist.flags
      ensures Valid() && lsq.View() == old(lsq.View())
      ensures Regs() == R.Forward(old(Regs()), insn.d, insn.phyRd, insn.rdResult)
    {
      hide R.Core.Valid, R.Rcu.Valid, LoopQueue.View, LoopQueue.Valid, Lsq.View, Lsq.Valid;
      ForwardKeepsValid(View(), insn.d, insn.phyRd, insn.rdResult);
      if insn.d.rdType != NONE && insn.d.isaRd != 0 {
        intRegfile[insn.phyRd] := insn.rdResult;
        intBusylist.flags[insn.phyRd] := intBusylist.flags[insn.phyRd].(forwarding := true, done := true);
      }
      assert Regs() == R.Forward(old(Regs()), insn.d, insn.phyRd, insn.rdResult);
    }

    // What a write-back port hands over.
    ghost function OutcomeFor(insn: Insn): R.Outcome
      reads insn
    {
      R.Outcome(insn.d, insn.robTag, insn.phyRd, insn.rdResult, insn.excp, insn.bruMisPred)
    }

    method MarkEntry(insn: Insn)
      requires rob.Valid() && insn.robTag < rob.View().size && rob.View().Live(insn.robTag)
      modifies rob.dataVec
      ensures rob.Valid()
      ensures rob.View() == old(rob.View()).Update(insn.robTag, R.MarkWritten(old(rob.View()).At(insn.robTag), OutcomeFor(insn)))
    {
      hide LoopQueue.View, Queue.Update;
      var e := rob.Get(insn.robTag).(done := true, isStable := true);
      if insn.excp.Some? {
        e := e.(fault := insn.excp);
      } else if insn.d.fu == BRU && insn.bruMisPred {
        e := e.(isMisPred := true);
      }
      rob.Set(insn.robTag, e);
    }

    method WriteResult(insn: Insn)
      requires insn.phyRd < intRegfile.Length == intBusylist.flags.Length
      modifies intRegfile, intBusylist.flags
      ensures intRegfile[..] == old(intRegfile[..])[insn.phyRd := insn.rdResult]
      ensures intBusylist.flags[..]
              == old(intBusylist.flags[..])[insn.phyRd := old(intBusylist.flags[insn.phyRd]).(done := true, forwarding := false)]
    {
      intRegfile[insn.phyRd] := insn.rdResult;
      intBusylist.flags[insn.phyRd] := intBusylist.flags[insn.phyRd].(done := true, forwarding := false);
    }

    // What the write-back does to the recovery state.
    method Detect(insn: Insn) returns (needRedirect: bool)
      requires rob.Valid() && insn.robTag < rob.View().size && rob.View().Live(insn.robTag)
      modifies this`robState, this`rollBackTag, this`excp
      ensures var o := OutcomeFor(insn);
        var raises := RaisesIn(rob.View(), old(robState), old(rollBackTag), o);
        && needRedirect == (raises && o.fault.None?)
        && robState == ModeAfter(old(robState), old(rollBackTag), raises, speculate, o)
        && rollBackTag == (if raises then o.robTag else old(rollBackTag))
        && excp == (if raises && o.fault.Some? then o.fault.value else old(excp))
    {
      hide LoopQueue.View;
      needRedirect := false;
      if insn.excp.None? {
        if insn.d.fu == BRU {
          if insn.bruMisPred {
            if robState == R.Idle || (rob.IsOlder(insn.robTag, rollBackTag) || insn.robTag == rollBackTag) {
              robState := R.Undo;
              rollBackTag := insn.robTag;
              needRedirect := true;
            }
          } else if !speculate && robState == R.WaitForResume && insn.robTag == rollBackTag {
            robState := R.Idle;
          }
        }
      } else if robState == R.Idle || rob.IsOlder(insn.robTag, rollBackTag) {
        robState := R.Undo;
        rollBackTag := insn.robTag;
        excp := insn.excp.value;
      }
    }

    method WriteBack(insn: Insn) returns (needRedirect: bool)
      requires Valid() && insn.robTag < Regs().rob.size && insn.phyRd < intRegfile.Length
      modifies this, rob.dataVec, intRegfile, intBusylist.flags
      ensures Valid() && lsq.View() == old(lsq.View())
      ensures Regs() == R.WriteBack(old(Regs()), speculate, OutcomeFor(insn))
      ensures needRedirect <==> old(Regs()).rob.Live(insn.robTag) && insn.excp.None? && R.Raises(old(Regs()), OutcomeFor(insn))
      ensures var q := old(Regs()).rob;
        needRedirect <==>
          && q.Live(insn.robTag) && insn.excp.None? && insn.d.fu == BRU && insn.bruMisPred
          && (old(robState) == R.Idle || q.Dist(insn.robTag) <= q.Dist(old(rollBackTag)))
    {
      hide R.Core.Valid, R.Rcu.Valid, LoopQueue.View, LoopQueue.Valid, Lsq.View, Lsq.Valid, Repr, R.MarkWritten,
        Queue.Update, Queue.Live, Queue.Latest, RaisesIn, ModeAfter, R.WriteBack, R.Raises, Queue.At, Queue.Pos,
        Queue.Dist;
      needRedirect := false;
      WriteBackKeepsValid(View(), speculate, OutcomeFor(insn));
      WriteBackParts(Regs(), speculate, OutcomeFor(insn));
      RaisesByDistance(Regs(), OutcomeFor(insn));
      GuardIsLiveness(rob.View(), insn.robTag);
      if rob.usage != 0 && (rob.IsOlder(insn.robTag, rob.GetLatest()) || insn.robTag == rob.GetLatest()) {
        needRedirect := Detect(insn);
        assert Separate() && lsq.View() == old(lsq.View());
        if insn.excp.None? && insn.d.rdType == INT && insn.d.isaRd != 0 {
          WriteResult(insn);
        }
        MarkEntry(insn);
      }
    }

    // ---- rollback ------------------------------------------------------------------------------

    method ReleaseResource(robTag: nat)
      requires Valid() && robTag < Regs().rob.size && Regs().rob.Live(robTag)
      requires Regs().rob.At(robTag).d.fu == STU ==> lsq.View().stq.elems != []
      modifies intFreelist, intBusylist.flags, intRenameTable.alias, lsq.Repr()
      ensures Valid() && R.EntryInRange(old(Regs()).rob.At(robTag), |old(Regs()).regs|)
      ensures R.TagInRange(old(Regs()).rob.At(robTag), old(lsq.View()).ldq.size, old(lsq.View()).stq.size)
      ensures View() == R.Release(old(View()), old(Regs()).rob.At(robTag))
    {
      hide R.AllBelow, R.EntriesInRange, R.TagsInRange, LoopQueue.View, Lsq.View;
      EntryFacts(View(), robTag);
      var entry := rob.Get(robTag);
      if entry.d.rdType == INT && entry.phyRd != 0 {
        intFreelist.Push(entry.phyRd);
        intBusylist.flags[entry.phyRd] := R.Busy(false, false, false);
        intRenameTable.alias[entry.d.isaRd] := entry.lphyRd;
      }
      if entry.d.fu == LDU {
        lsq.KillLoadEntry(entry.lsqTag);
      } else if entry.d.fu == STU {
        lsq.KillStoreEntry(entry.lsqTag);
      }
      assert View() == R.Release(old(View()), entry);
    }

    // One turn of the RollBack loop short of the rollback entry.
    method RemoveLatest()
      requires Valid() && R.CanUndoOne(View())
      modifies Repr()
      ensures Valid() && View() == R.UndoOne(old(View()))
    {
      hide R.Core.Valid, R.Rcu.Valid, LoopQueue.View, Lsq.View, R.Release, R.CanUndoOne, Queue.DropLatest, Queue.Live,
        Queue.At, Queue.Latest;
      UndoFacts(View());
      var robPtr := rob.GetLatest();
      var entry := rob.Get(robPtr);
      if entry.valid {
        ReleaseResource(robPtr);
      }
      rob.RollBack();
      assert View() == R.UndoOne(old(View()));
    }

    // The turn that reaches the rollback entry.
    method FinishRollBack()
      requires Valid() && R.CanFinishUndo(View())
      modifies Repr()
      ensures Valid() && View() == R.FinishUndo(old(View()))
    {
      hide R.AllBelow, R.EntriesInRange, R.TagsInRange, LoopQueue.View, Lsq.View, R.Release;
      SlotPos(rob.View(), 0);
      var entry := rob.Get(rollBackTag);
      robState := R.WaitForResume;
      if entry.fault.Some? {
        ReleaseResource(rollBackTag);
      }
      assert View() == R.FinishUndo(old(View()));
    }

    // The walk from the youngest entry towards the rollback entry, as the source's loop
    // condition groups it: (i < width && older) || reached.
    method RollBack()
      requires Valid() && CanRollBack(View(), allocWidth, 0)
      modifies Repr()
      ensures Valid() && View() == R.RollBack(old(View()), allocWidth, 0)
    {
      hide LoopQueue.View, Lsq.View, Lsq.Valid, Lsq.Repr, R.UndoOne, R.FinishUndo, R.CanUndoOne, R.CanFinishUndo,
        R.Core.Valid, R.Rcu.Valid, R.RollBack, CanRollBack;
      var robPtr := rob.GetLatest();
      var i := 0;
      while (i < allocWidth && rob.IsOlder(rollBackTag, robPtr)) || robPtr == rollBackTag
        invariant Valid() && robPtr == rob.View().Latest() && CanRollBack(View(), allocWidth, i)
        invariant R.RollBack(old(View()), allocWidth, 0) == R.RollBack(View(), allocWidth, i)
        decreases rob.usage
      {
        RollBackTurn(View(), allocWidth, i);
        if robPtr == rollBackTag {
          FinishRollBack();
          return;
        }
        RemoveLatest();
        robPtr := rob.GetLatest();
        i := i + 1;
      }
      RollBackStops(View(), allocWidth, i);
    }

    method Evaluate()
      requires Valid() && (robState == R.Undo ==> CanRollBack(View(), allocWidth, 0))
      modifies Repr()
      ensures Valid() && View() == R.Evaluate(old(View()), allocWidth)
    {
      hide R.AllBelow, R.EntriesInRange, R.TagsInRange, LoopQueue.View, Lsq.View, Lsq.Valid, R.RollBack, CanRollBack;
      if robState == R.Undo {
        RollBack();
      }
      if robState == R.FlushBackend {
        robState := R.Idle;
      }
    }

    // ---- commit --------------------------------------------------------------------------------

    // Retiring the header's registers.
    method RetireRegisters(robEntry: R.RobEntry)
      requires robEntry.lphyRd < intBusylist.flags.Length
      modifies intFreelist, intBusylist.flags
      ensures var retires := robEntry.d.rdType == INT && robEntry.lphyRd != 0;
        && intFreelist.list == (if retires then old(intFreelist.list) + [robEntry.lphyRd] else old(intFreelist.list))
        && intBusylist.flags[..] == if retires then
             old(intBusylist.flags[..])[robEntry.lphyRd := old(intBusylist.flags[robEntry.lphyRd]).(done := false,
               inUse := false)]
           else old(intBusylist.flags[..])
    {
      if robEntry.d.rdType == INT && robEntry.lphyRd != 0 {
        intFreelist.Push(robEntry.lphyRd);
        intBusylist.flags[robEntry.lphyRd] := intBusylist.flags[robEntry.lphyRd].(done := false, inUse := false);
      }
    }

    method RetireAccess(robEntry: R.RobEntry)
      requires lsq.Valid() && R.TagInRange(robEntry, lsq.View().ldq.size, lsq.View().stq.size)
      modifies lsq.Repr()
      ensures lsq.Valid() && lsq.View() == R.RetireLsq(old(lsq.View()), robEntry)
    {
      hide LoopQueue.View;
      if robEntry.d.fu == LDU {
        lsq.CommitLoadEntry(robEntry.lsqTag);
      } else if robEntry.d.fu == STU {
        lsq.CommitStoreEntry(robEntry.lsqTag);
      }
    }

    method Retire(robEntry: R.RobEntry)
      requires Valid() && R.EntryInRange(robEntry, |Regs().regs|)
        && R.TagInRange(robEntry, lsq.View().ldq.size, lsq.View().stq.size)
      modifies intFreelist, intBusylist.flags, lsq.Repr()
      ensures Valid() && View() == R.Core(R.RetireRegs(old(Regs()), robEntry), R.RetireLsq(old(lsq.View()), robEntry))
    {
      hide R.Core.Valid, R.Rcu.Valid, LoopQueue.View, Lsq.View, R.RetireLsq, R.TagInRange, R.AllBelow;
      RetireKeepsValid(View(), robEntry);
      RetireRegisters(robEntry);
      RetireAccess(robEntry);
      assert Regs() == R.RetireRegs(old(Regs()), robEntry);
    }

    // One turn of the loop of CommitInsn.
    method CommitHeader() returns (trap: Option<R.Trap>, flush: bool)
      requires Valid() && R.CanCommit(View())
      modifies Repr()
      ensures Valid() && View() == R.CommitOne(old(View()))
      ensures trap == R.TrapAtCommit(old(View())) && flush == R.ResumesAtCommit(old(View()))
      ensures var e := old(Regs()).rob.elems[0];
        && (flush <==> e.valid && old(robState) == R.WaitForResume && old(rob.header) == old(rollBackTag))
        && trap == if flush && e.fault.Some? then Some(R.Trap(e.d.pc, old(excp))) else None
    {
      hide R.Core.Valid, R.Rcu.Valid, LoopQueue.View, Lsq.View, R.RetireLsq, R.RetireRegs, R.EntryInRange, Queue.Pop,
        Queue.At, Queue.Live, Queue.Pos, R.TagInRange;
      trap, flush := None, false;
      HeaderFacts(View());
      var robPtr := rob.header;
      var robEntry := rob.Get(robPtr);
      if robEntry.valid {
        if robEntry.fault.None? {
          Retire(robEntry);
        }
        if robState == R.WaitForResume && robPtr == rollBackTag {
          robState := R.FlushBackend;
          flush := true;
          if robEntry.fault.Some? {
            trap := Some(R.Trap(robEntry.d.pc, excp));
          }
        }
      }
      rob.HeaderInc();
      assert View() == R.CommitOne(old(View()));
    }

    // A package of insnCount entries; the last trap raised, and whether the backend is flushed.
    method CommitInsn(insnCount: nat) returns (trap: Option<R.Trap>, flush: bool)
      requires Valid() && R.CommitMany(View(), insnCount).Some?
      modifies Repr()
      ensures Valid() && Some(View()) == R.CommitMany(old(View()), insnCount)
      ensures trap == TrapOf(old(View()), insnCount) && flush == Flushes(old(View()), insnCount)
    {
      hide R.CommitOne, R.CanCommit, R.TrapAtCommit, R.ResumesAtCommit, R.Core.Valid, R.Rcu.Valid, LoopQueue.View,
        Lsq.View, Lsq.Valid, Separate, Valid, View, Regs;
      trap, flush := None, false;
      for i := 0 to insnCount
        invariant Valid() && R.CommitMany(View(), insnCount - i).Some?
        invariant R.CommitMany(View(), insnCount - i) == R.CommitMany(old(View()), insnCount)
        invariant TrapOf(old(View()), insnCount) == Later(TrapOf(View(), insnCount - i), trap)
        invariant Flushes(old(View()), insnCount) == (Flushes(View(), insnCount - i) || flush)
      {
        var t, f := CommitHeader();
        trap := Later(t, trap);
        flush := flush || f;
      }
    }
  }

  function Later(t: Option<R.Trap>, earlier: Option<R.Trap>): Option<R.Trap> { if t.Some? then t else earlier }

  function TrapOf(c: R.Core, n: nat): Option<R.Trap>
    requires R.CommitMany(c, n).Some?
    decreases n
  {
    if n == 0 then None else Later(TrapOf(R.CommitOne(c), n - 1), R.TrapAtCommit(c))
  }

  predicate Flushes(c: R.Core, n: nat)
    requires R.CommitMany(c, n).Some?
    decreases n
  {
    n > 0 && (Flushes(R.CommitOne(c), n - 1) || R.ResumesAtCommit(c))
  }

  lemma RetireKeepsValid(c: R.Core, e: R.RobEntry)
    requires c.Valid() && R.EntryInRange(e, |c.rcu.regs|) && R.TagInRange(e, c.lsq.ldq.size, c.lsq.stq.size)
    ensures c.rcu.Valid() && |c.rcu.busy| == |c.rcu.regs| && R.Core(R.RetireRegs(c.rcu, e), R.RetireLsq(c.lsq, e)).Valid()
  {
  }

  lemma HeaderFacts(c: R.Core)
    requires R.CanCommit(c)
    ensures c.Valid() && c.rcu.Valid() && c.rcu.rob.elems != []
    ensures c.rcu.rob.Live(c.rcu.rob.head) && c.rcu.rob.At(c.rcu.rob.head) == c.rcu.rob.elems[0]
      && c.rcu.rob.head < c.rcu.rob.size
    ensures R.EntryInRange(c.rcu.rob.elems[0], |c.rcu.regs|) && R.TagInRange(c.rcu.rob.elems[0], c.lsq.ldq.size, c.lsq.stq.size)
    ensures |c.rcu.busy| == |c.rcu.regs|
  {
  }

  function TargetAt(r: R.Rcu, ds: seq<Decoded>, n: nat, k: nat): nat
    requires TakesFit(r, ds, n) && k < n
  {
    R.RenameOne(TakeAt(r, ds, n, k), ds[k]).phyRd
  }

  lemma TakeNone(r: R.Rcu, ds: seq<Decoded>, n: nat)
    requires TakesFit(r, ds, n)
    ensures TakeAt(r, ds, n, 0) == r && TakeAt(r, ds, n, n) == TakeMany(r, ds, n) && n <= |ds|
  {
  }

  lemma TakeNext(r: R.Rcu, ds: seq<Decoded>, n: nat, k: nat)
    requires TakesFit(r, ds, n) && k < n
    ensures var r' := TakeAt(r, ds, n, k);
      && k < |ds| && ds[k].WellDecoded() && R.CanAllocate(r', ds[k]) && TakeAt(r, ds, n, k + 1) == R.TakeRegister(r', ds[k])
      && TargetAt(r, ds, n, k) == R.RenameOne(r', ds[k]).phyRd
  {
  }

  // The queue part of one state with the register part of another.
  function Merge(a: R.Rcu, t: R.Rcu): R.Rcu { t.(rob := a.rob, mode := a.mode, tag := a.tag, excp := a.excp) }

  function EntryAt(r: R.Rcu, xs: seq<Item>, n: nat, k: nat): R.RobEntry
    requires TakesFit(r, Decodeds(xs), n) && |r.regs| > 0 && k < n
  {
    R.NewRobEntry(xs[k].id, xs[k].d, R.RenameOne(AllocateAt(r, xs, n, k), xs[k].d), xs[k].lsqTag)
  }

  function SlotAt(r: R.Rcu, xs: seq<Item>, n: nat, k: nat): nat
    requires TakesFit(r, Decodeds(xs), n) && |r.regs| > 0 && k < n
  {
    AllocateAt(r, xs, n, k).rob.Tail()
  }

  lemma MergeEnds(r: R.Rcu, xs: seq<Item>, n: nat)
    requires TakesFit(r, Decodeds(xs), n) && |r.regs| > 0
    ensures var t := TakeMany(r, Decodeds(xs), n);
      && n <= |xs| && Merge(AllocateAt(r, xs, n, 0), t) == t && Merge(AllocateAt(r, xs, n, n), t) == AllocateMany(r, xs, n)
  {
    AllocateNone(r, xs, n);
    EntriesLeaveRegisters(r, xs, n, n);
  }

  lemma MergeNext(r: R.Rcu, xs: seq<Item>, n: nat, k: nat)
    requires TakesFit(r, Decodeds(xs), n) && |r.regs| > 0 && k < n
    ensures var t := TakeMany(r, Decodeds(xs), n);
      var m := Merge(AllocateAt(r, xs, n, k), t);
      var e := EntryAt(r, xs, n, k);
      && m.Valid() && !m.rob.Full() && R.EntryInRange(e, |m.regs|) && SlotAt(r, xs, n, k) == m.rob.Tail()
      && Merge(AllocateAt(r, xs, n, k + 1), t) == R.CreateRobEntry(m, e)
  {
  }

  lemma TableEntryBelow(r: R.Rcu, d: Decoded)
    requires r.Valid() && d.WellDecoded()
    ensures r.table[d.isaRd] < |r.regs|
  {
  }

  lemma OneMerge(a: R.Rcu, t: R.Rcu, x: Item)
    requires a.Valid() && t.Valid() && x.d.WellDecoded() && R.CanAllocate(a, x.d) && |a.regs| == |t.regs| > 0
    ensures var m := Merge(a, t);
      var e := R.NewRobEntry(x.id, x.d, R.RenameOne(a, x.d), x.lsqTag);
      && m.Valid() && !m.rob.Full() && R.EntryInRange(e, |m.regs|) && a.rob.Tail() == m.rob.Tail() && |m.regs| == |t.regs|
      && Merge(R.AllocateOne(a, x.id, x.d, x.lsqTag), t) == R.CreateRobEntry(m, e)
  {
  }

  // Every turn of the RollBack loop finds what it needs.
  predicate CanRollBack(c: R.Core, w: nat, i: nat)
    decreases |c.rcu.rob.elems|
  {
    && c.Valid() && c.rcu.mode == R.Undo && c.rcu.rob.elems != []
    && (if c.rcu.rob.Latest() == c.rcu.tag then R.CanFinishUndo(c)
        else i < w && c.rcu.rob.IsOlder(c.rcu.tag, c.rcu.rob.Latest()) ==>
          R.CanUndoOne(c) && CanRollBack(R.UndoOne(c), w, i + 1))
  }

  lemma UndoFacts(c: R.Core)
    requires R.CanUndoOne(c)
    ensures c.Valid() && c.rcu.Valid() && c.lsq.Valid() && c.rcu.rob.Latest() < c.rcu.rob.size && c.rcu.rob.elems != []
    ensures c.rcu.rob.Live(c.rcu.rob.Latest()) && c.rcu.rob.At(c.rcu.rob.Latest()) == R.Youngest(c.rcu)
    ensures R.Youngest(c.rcu).valid && R.Youngest(c.rcu).d.fu == STU ==> c.lsq.stq.elems != []
  {
  }

  lemma RollBackTurn(c: R.Core, w: nat, i: nat)
    requires CanRollBack(c, w, i)
    requires c.rcu.rob.Valid() ==>
      c.rcu.rob.Latest() == c.rcu.tag || (i < w && c.rcu.rob.IsOlder(c.rcu.tag, c.rcu.rob.Latest()))
    ensures c.Valid()
    ensures c.rcu.rob.Latest() == c.rcu.tag ==> R.CanFinishUndo(c) && R.RollBack(c, w, i) == R.FinishUndo(c)
    ensures c.rcu.rob.Latest() != c.rcu.tag ==>
      && R.CanUndoOne(c) && CanRollBack(R.UndoOne(c), w, i + 1) && R.RollBack(c, w, i) == R.RollBack(R.UndoOne(c), w, i + 1)
      && |R.UndoOne(c).rcu.rob.elems| < |c.rcu.rob.elems|
  {
  }

  lemma RollBackStops(c: R.Core, w: nat, i: nat)
    requires CanRollBack(c, w, i)
    requires c.rcu.rob.Valid() ==>
      c.rcu.rob.Latest() != c.rcu.tag && !(i < w && c.rcu.rob.IsOlder(c.rcu.tag, c.rcu.rob.Latest()))
    ensures c.Valid() && R.RollBack(c, w, i) == c
  {
  }

  lemma ForwardKeepsValid(c: R.Core, d: Decoded, phyRd: nat, v: Val)
    requires c.Valid() && phyRd < |c.rcu.regs|
    ensures c.rcu.Valid() && |c.rcu.busy| == |c.rcu.regs| && c.(rcu := R.Forward(c.rcu, d, phyRd, v)).Valid()
  {
  }

  lemma WriteBackSizes(l: L.Lsq, d: Decoded, lsqTag: nat, addr: nat, data: Val)
    requires l.Valid() && (d.fu == LDU ==> lsqTag < l.ldq.size) && (d.fu == STU ==> lsqTag < l.stq.size)
    ensures var l' := L.WriteBack(l, d, lsqTag, addr, data); l'.ldq.size == l.ldq.size && l'.stq.size == l.stq.size
  {
  }

  lemma SizesKeepValid(c: R.Core, c': R.Core)
    requires c.Valid() && c'.rcu == c.rcu && c'.lsq.Valid() && c'.lsq.ldq.size == c.lsq.ldq.size
      && c'.lsq.stq.size == c.lsq.stq.size
    ensures c'.Valid()
  {
  }

  lemma WriteBackKeepsValid(c: R.Core, spec: bool, o: R.Outcome)
    requires c.Valid() && o.robTag < c.rcu.rob.size && o.phyRd < |c.rcu.regs|
    ensures c.rcu.Valid() && c.(rcu := R.WriteBack(c.rcu, spec, o)).Valid()
  {
    hide R.AllBelow;
    GuardIsLiveness(c.rcu.rob, o.robTag);
  }

  function Addressed(e: R.RobEntry, d: Decoded, fault: Option<Fault>): R.RobEntry {
    var e1 := if d.fu == STU then e.(isStable := true, done := true) else e.(isStable := true);
    if fault.Some? then e1.(done := true, fault := fault) else e1
  }

  // Rcu::AGUFastDetect field by field.
  lemma AguParts(r: R.Rcu, d: Decoded, robTag: nat, fault: Option<Fault>)
    requires r.Valid() && robTag < r.rob.size
    ensures var late := fault.Some? && (r.mode != R.Idle || r.rob.IsOlder(robTag, r.tag));
      R.AguRaise(r, d, robTag, fault) ==
        r.(rob := if r.rob.Live(robTag) then r.rob.Update(robTag, Addressed(r.rob.At(robTag), d, fault)) else r.rob,
           mode := if late then R.Undo else r.mode, tag := if late then robTag else r.tag,
           excp := if late then fault.value else r.excp)
  {
    hide R.AllBelow, R.EntriesInRange;
  }

  lemma AguKeepsValid(c: R.Core, d: Decoded, robTag: nat, fault: Option<Fault>)
    requires c.Valid() && robTag < c.rcu.rob.size
    ensures c.rcu.Valid() && c.(rcu := R.AguRaise(c.rcu, d, robTag, fault)).Valid()
  {
    hide R.AllBelow;
  }

  predicate SameNames(e: R.RobEntry, e': R.RobEntry) {
    e.d == e'.d && e.phyRd == e'.phyRd && e.lphyRd == e'.lphyRd && e.lsqTag == e'.lsqTag
  }

  // Marking an entry keeps the shapes.
  lemma UpdateKeepsValid(c: R.Core, slot: nat)
    requires c.Valid() && slot < c.rcu.rob.size
    ensures c.rcu.Valid()
    ensures c.rcu.rob.Live(slot) ==>
      forall e: R.RobEntry :: SameNames(e, c.rcu.rob.At(slot)) ==> c.(rcu := c.rcu.(rob := c.rcu.rob.Update(slot, e))).Valid()
  {
  }

  lemma EntryFacts(c: R.Core, slot: nat)
    requires c.Valid() && slot < c.rcu.rob.size && c.rcu.rob.Live(slot)
    ensures R.EntryInRange(c.rcu.rob.At(slot), |c.rcu.regs|) && R.TagInRange(c.rcu.rob.At(slot), c.lsq.ldq.size, c.lsq.stq.size)
    ensures |c.rcu.busy| == |c.rcu.regs| && |c.rcu.table| == ISA_REGS
  {
  }

  predicate RenamedAs(insn: Insn, n: R.Renamed)
    reads insn`phyRs1, insn`phyRs2, insn`phyRd, insn`lphyRd
  {
    n == R.Renamed(insn.phyRs1, insn.phyRs2, insn.phyRd, insn.lphyRd)
  }

  // Each of the first n instructions holds what its entry will be made from.
  ghost predicate EntriesReady(pkg: seq<Insn>, r: R.Rcu, xs: seq<Item>, n: nat, l: L.Lsq)
    reads Insns(pkg)`lsqTag, Insns(pkg)`phyRd, Insns(pkg)`lphyRd
  {
    && TakesFit(r, Decodeds(xs), n) && |r.regs| > 0 && n <= |pkg|
    && forall i :: 0 <= i < n ==>
      EntryFor(pkg[i]) == EntryAt(r, xs, n, i) && R.TagInRange(EntryFor(pkg[i]), l.ldq.size, l.stq.size)
  }

  // Each of the first n instructions is named as if renamed singly after its predecessors.
  ghost predicate NamesAsSingly(pkg: seq<Insn>, r: R.Rcu, xs: seq<Item>, n: nat)
    reads Insns(pkg)`phyRs1, Insns(pkg)`phyRs2, Insns(pkg)`phyRd, Insns(pkg)`lphyRd
  {
    && TakesFit(r, Decodeds(xs), n) && |r.regs| > 0 && n <= |pkg| && n <= |xs|
    && forall i :: 0 <= i < n ==> RenamedAs(pkg[i], R.RenameOne(AllocateAt(r, xs, n, i), xs[i].d))
  }

  // Each of the first n instructions carries the slot it would have been given singly.
  ghost predicate SlotsAsSingly(pkg: seq<Insn>, r: R.Rcu, xs: seq<Item>, n: nat)
    reads Insns(pkg)`robTag
  {
    && TakesFit(r, Decodeds(xs), n) && |r.regs| > 0 && n <= |pkg|
    && forall i :: 0 <= i < n ==> pkg[i].robTag == SlotAt(r, xs, n, i)
  }

  // The batch's names and targets: the table each instruction was renamed by.
  ghost predicate Renamed(pkg: seq<Insn>, r: R.Rcu, ds: seq<Decoded>, n: nat)
    reads Insns(pkg)`phyRs1, Insns(pkg)`phyRs2, Insns(pkg)`phyRd, Insns(pkg)`lphyRd
  {
    && TakesFit(r, ds, n) && n <= |pkg|
    && forall i :: 0 <= i < n ==>
      RenamedBy(pkg[i], Tables(r, ds, n)[i]) && pkg[i].phyRd == TargetAt(r, ds, n, i)
  }

  ghost predicate LsqTagsInRange(pkg: seq<Insn>, n: nat, l: L.Lsq)
    reads Insns(pkg)`lsqTag
  {
    n <= |pkg| && forall i :: 0 <= i < n ==>
      (pkg[i].d.fu == LDU ==> pkg[i].lsqTag < l.ldq.size) && (pkg[i].d.fu == STU ==> pkg[i].lsqTag < l.stq.size)
  }

  lemma RowsMatch(pkg: seq<Insn>, r: R.Rcu, xs: seq<Item>, n: nat, l: L.Lsq)
    requires |r.regs| > 0 && xs == Items(pkg) && Renamed(pkg, r, Decodeds(xs), n) && LsqTagsInRange(pkg, n, l)
    ensures EntriesReady(pkg, r, xs, n, l) && NamesAsSingly(pkg, r, xs, n)
  {
    hide TakesFit, AllocateAt, TargetAt, EntryAt, EntryFor, R.TagInRange, RenamedAs, RenamedBy, R.RenameOne, Tables;
    forall i | 0 <= i < n
      ensures EntryFor(pkg[i]) == EntryAt(r, xs, n, i)
      ensures R.TagInRange(EntryFor(pkg[i]), l.ldq.size, l.stq.size)
      ensures RenamedAs(pkg[i], R.RenameOne(AllocateAt(r, xs, n, i), xs[i].d))
    {
      RowMatches(pkg[i], r, xs, n, i, l);
    }
  }

  // The tables the first n instructions are renamed by, and the one they leave.
  function Tables(r: R.Rcu, ds: seq<Decoded>, n: nat): (tables: seq<seq<nat>>)
    requires TakesFit(r, ds, n)
    ensures |tables| == n + 1 && forall k :: 0 <= k <= n ==> tables[k] == TakeAt(r, ds, n, k).table
  {
    seq(n + 1, k requires 0 <= k <= n => TakeAt(r, ds, n, k).table)
  }

  lemma FitFacts(r: R.Rcu, ds: seq<Decoded>, n: nat)
    requires TakesFit(r, ds, n)
    ensures n <= |ds| && (forall i :: 0 <= i < |ds| ==> ds[i].WellDecoded()) && r.Valid()
    ensures |Tables(r, ds, n)| == n + 1 && Tables(r, ds, n)[0] == r.table
  {
  }

  lemma TablesChain(r: R.Rcu, ds: seq<Decoded>, n: nat, targets: seq<nat>)
    requires TakesFit(r, ds, n) && |targets| == n && forall k :: 0 <= k < n ==> targets[k] == TargetAt(r, ds, n, k)
    ensures TableChain(Tables(r, ds, n), ds, targets)
  {
    var tables := Tables(r, ds, n);
    FitFacts(r, ds, n);
    forall k | 0 <= k < n ensures ChainLink(tables[k], tables[k + 1], ds[k], targets[k]) {
      TakeNext(r, ds, n, k);
      hide TakeAt, TakesFit, R.Rcu.Valid;
      TableLink(TakeAt(r, ds, n, k), ds[k]);
    }
  }

  lemma TableLink(r: R.Rcu, d: Decoded)
    requires r.Valid() && d.WellDecoded() && R.CanAllocate(r, d)
    ensures ChainLink(r.table, R.TakeRegister(r, d).table, d, R.RenameOne(r, d).phyRd)
  {
  }

  // What the batch wrote into an instruction is what renaming it singly gives.
  lemma RowMatches(insn: Insn, r: R.Rcu, xs: seq<Item>, n: nat, k: nat, l: L.Lsq)
    requires TakesFit(r, Decodeds(xs), n) && |r.regs| > 0 && k < n && xs[k] == Item(insn.id, insn.d, insn.lsqTag)
    requires RenamedBy(insn, Tables(r, Decodeds(xs), n)[k])
    requires insn.phyRd == TargetAt(r, Decodeds(xs), n, k)
    requires (insn.d.fu == LDU ==> insn.lsqTag < l.ldq.size) && (insn.d.fu == STU ==> insn.lsqTag < l.stq.size)
    ensures R.TagInRange(EntryFor(insn), l.ldq.size, l.stq.size) && EntryAt(r, xs, n, k) == EntryFor(insn)
    ensures RenamedAs(insn, R.RenameOne(AllocateAt(r, xs, n, k), insn.d))
  {
    hide TakeAt, AllocateAt, TakesFit, R.Rcu.Valid;
    EntriesLeaveRegisters(r, xs, n, k);
    TakeNext(r, Decodeds(xs), n, k);
  }

  lemma TakeKeepsValid(c: R.Core, d: Decoded)
    requires c.Valid() && d.WellDecoded() && R.CanAllocate(c.rcu, d)
    ensures c.rcu.Valid() && |c.rcu.busy| == |c.rcu.regs| && d.isaRd < |c.rcu.table|
    ensures c.(rcu := R.TakeRegister(c.rcu, d)).Valid()
    ensures d.Writes() ==> c.rcu.free[0] < |c.rcu.regs|
  {
  }

  lemma CreateKeepsValid(c: R.Core, e: R.RobEntry)
    requires c.Valid() && !c.rcu.rob.Full() && R.EntryInRange(e, |c.rcu.regs|) && R.TagInRange(e, c.lsq.ldq.size, c.lsq.stq.size)
    ensures c.rcu.Valid() && c.(rcu := R.CreateRobEntry(c.rcu, e)).Valid()
  {
  }

  lemma ChainLength(tables: seq<seq<nat>>, ds: seq<Decoded>, targets: seq<nat>)
    requires TableChain(tables, ds, targets)
    ensures |tables| == |targets| + 1 && |targets| <= |ds|
  {
  }

  lemma ChainStep(tables: seq<seq<nat>>, ds: seq<Decoded>, targets: seq<nat>, k: nat)
    requires TableChain(tables, ds, targets) && k < |targets| && |tables| == |targets| + 1 && |targets| <= |ds|
    ensures ds[k].isaRd < |tables[k]|
    ensures tables[k + 1] == if ds[k].Writes() then tables[k][ds[k].isaRd := targets[k]] else tables[k]
  {
  }
}
