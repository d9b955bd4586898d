// Value-level specification of the reorder/rename unit (src/Processor/Component/Rcu.cc).
module RcuSpec {
  import opened DynInsn
  import opened LoopQueue
  import LsqSpec

  datatype RobState = Idle | Undo | WaitForResume | FlushBackend

  datatype Busy = Busy(inUse: bool, forwarding: bool, done: bool)

  // `id` and `d` stand for the instruction pointer and the fields copied from it;
  // `fault` is the isExcp flag together with the instruction's exception record.
  datatype RobEntry = RobEntry(
    id: nat, d: Decoded, valid: bool, done: bool, isStable: bool, isMisPred: bool,
    fault: Option<Fault>, lsqTag: nat, phyRd: nat, lphyRd: nat)

  datatype Renamed = Renamed(phyRs1: nat, phyRs2: nat, phyRd: nat, lphyRd: nat)

  datatype Rcu = Rcu(
    rob: Queue<RobEntry>, mode: RobState, tag: nat, excp: Fault,
    table: seq<nat>, free: seq<nat>, busy: seq<Busy>, regs: seq<Val>)
  {
    // Shapes only: sizes and index ranges.
    predicate Valid() {
      && rob.Valid() && tag < rob.size
      && |table| == ISA_REGS && |busy| == |regs|
      && AllBelow(table, |regs|) && AllBelow(free, |regs|) && EntriesInRange(rob.elems, |regs|)
    }
  }

  predicate AllBelow(ps: seq<nat>, bound: nat) { forall i :: 0 <= i < |ps| ==> ps[i] < bound }

  predicate EntriesInRange(q: seq<RobEntry>, regCount: nat) {
    forall k :: 0 <= k < |q| ==> EntryInRange(q[k], regCount)
  }

  predicate EntryInRange(e: RobEntry, regCount: nat) {
    e.phyRd < regCount && e.lphyRd < regCount && e.d.WellDecoded()
  }

  // The two queues and the reorder unit, which its methods update together.
  datatype Core = Core(rcu: Rcu, lsq: LsqSpec.Lsq) {
    predicate Valid() {
      rcu.Valid() && lsq.Valid() && TagsInRange(rcu.rob.elems, lsq.ldq.size, lsq.stq.size)
    }
  }

  predicate TagInRange(e: RobEntry, ldqSize: nat, stqSize: nat) {
    && (e.d.fu == LDU ==> e.lsqTag < ldqSize)
    && (e.d.fu == STU ==> e.lsqTag < stqSize)
  }

  predicate TagsInRange(q: seq<RobEntry>, ldqSize: nat, stqSize: nat) {
    forall k :: 0 <= k < |q| ==> TagInRange(q[k], ldqSize, stqSize)
  }

  // ---- allocation -------------------------------------------------------------------

  predicate CanAllocate(r: Rcu, d: Decoded) {
    !r.rob.Full() && (d.Writes() ==> r.free != [])
  }

  function RenameOne(r: Rcu, d: Decoded): (n: Renamed)
    requires r.Valid() && d.WellDecoded() && CanAllocate(r, d)
    ensures n.phyRd < |r.regs| || !d.Writes()
  {
    Renamed(r.table[d.isaRs1], r.table[d.isaRs2], if d.Writes() then r.free[0] else 0, r.table[d.isaRd])
  }

  // The register half of Rcu::Allocate for one instruction.
  function TakeRegister(r: Rcu, d: Decoded): (r': Rcu)
    requires r.Valid() && d.WellDecoded() && CanAllocate(r, d)
    ensures r'.Valid()
  {
    if d.Writes() then
      var p := r.free[0];
      r.(free := r.free[1..], busy := r.busy[p := Busy(true, false, false)], table := r.table[d.isaRd := p])
    else r
  }

  function NewRobEntry(id: nat, d: Decoded, n: Renamed, lsqTag: nat): RobEntry {
    RobEntry(id, d, true, d.DoneAtDispatch(), d.DoneAtDispatch(), false, d.excp, lsqTag, n.phyRd, n.lphyRd)
  }

  // Rcu::CreateRobEntry.
  function CreateRobEntry(r: Rcu, e: RobEntry): (r': Rcu)
    requires r.Valid() && !r.rob.Full() && EntryInRange(e, |r.regs|)
    ensures r'.Valid()
  {
    var tag := r.rob.Tail();
    var r1 := r.(rob := r.rob.Push(e));
    if e.d.excp.Some? then r1.(mode := Undo, tag := tag, excp := e.d.excp.value)
    else if e.d.controlFlow then r1.(mode := if e.d.IsMret() then Idle else Undo, tag := tag)
    else r1
  }

  // Renaming and allocating a single instruction: the meaning of Allocate on a package of one.
  function AllocateOne(r: Rcu, id: nat, d: Decoded, lsqTag: nat): (r': Rcu)
    requires r.Valid() && d.WellDecoded() && CanAllocate(r, d) && |r.regs| > 0
    ensures r'.Valid()
  {
    CreateRobEntry(TakeRegister(r, d), NewRobEntry(id, d, RenameOne(r, d), lsqTag))
  }

  // Rcu::TryAllocate.
  function FitCount(ds: seq<Decoded>, room: nat, regs: nat): (n: nat)
    ensures n <= |ds| && n <= room
  {
    if ds == [] || room == 0 then 0
    else if ds[0].Writes() then (if regs > 0 then 1 + FitCount(ds[1..], room - 1, regs - 1) else 0)
    else 1 + FitCount(ds[1..], room - 1, regs)
  }

  // ---- write-back ---------------------------------------------------------------------

  // What Rcu::WriteBack is handed: the instruction with its result or its fault.
  datatype Outcome = Outcome(d: Decoded, robTag: nat, phyRd: nat, result: Val, fault: Option<Fault>, misPred: bool)

  predicate Raises(r: Rcu, o: Outcome) {
    if o.fault.Some? then r.mode == Idle || r.rob.IsOlder(o.robTag, r.tag)
    else o.d.fu == BRU && o.misPred
         && (r.mode == Idle || r.rob.IsOlder(o.robTag, r.tag) || o.robTag == r.tag)
  }

  function MarkWritten(e: RobEntry, o: Outcome): RobEntry {
    var e1 := e.(done := true, isStable := true);
    if o.fault.Some? then e1.(fault := o.fault)
    else if o.d.fu == BRU && o.misPred then e1.(isMisPred := true)
    else e1
  }

  function WriteBack(r: Rcu, spec: bool, o: Outcome): (r': Rcu)
    requires r.Valid() && o.robTag < r.rob.size && o.phyRd < |r.regs|
    ensures r'.Valid()
  {
    if !(r.rob.elems != [] && (r.rob.IsOlder(o.robTag, r.rob.Latest()) || o.robTag == r.rob.Latest())) then r
    else
      GuardIsLiveness(r.rob, o.robTag);
      var r1 := r.(rob := r.rob.Update(o.robTag, MarkWritten(r.rob.At(o.robTag), o)));
      var r2 :=
        if Raises(r, o) then
          (if o.fault.Some? then r1.(mode := Undo, tag := o.robTag, excp := o.fault.value)
           else r1.(mode := Undo, tag := o.robTag))
        else if o.fault.None? && o.d.fu == BRU && !o.misPred && !spec && r.mode == WaitForResume && o.robTag == r.tag then
          r1.(mode := Idle)
        else r1;
      if o.fault.None? && o.d.Writes() then
        r2.(regs := r2.regs[o.phyRd := o.result],
            busy := r2.busy[o.phyRd := r2.busy[o.phyRd].(done := true, forwarding := false)])
      else r2
  }

  // WriteBackPort::Forwarding with result forwarding on, minus the scheduler wake-up.
  function Forward(r: Rcu, d: Decoded, phyRd: nat, result: Val): (r': Rcu)
    requires r.Valid() && phyRd < |r.regs|
    ensures r'.Valid()
  {
    if d.rdType != NONE && d.isaRd != 0 then
      r.(regs := r.regs[phyRd := result],
         busy := r.busy[phyRd := r.busy[phyRd].(forwarding := true, done := true)])
    else r
  }

  // Rcu::AGUFastDetect without an exception: address generation never raises one.
  function AguDetect(r: Rcu, d: Decoded, robTag: nat): (r': Rcu)
    requires r.Valid() && robTag < r.rob.size
    ensures r'.Valid()
  {
    if r.rob.Live(robTag) then
      var e := r.rob.At(robTag).(isStable := true);
      r.(rob := r.rob.Update(robTag, if d.fu == STU then e.(done := true) else e))
    else r
  }

  // Rcu::AGUFastDetect as written. Its test for an older recovery is turned round: outside a
  // recovery the exception is recorded only if older than the last rollback entry, and inside
  // one always.
  function AguRaise(r: Rcu, d: Decoded, robTag: nat, fault: Option<Fault>): (r': Rcu)
    requires r.Valid() && robTag < r.rob.size
    ensures r'.Valid() && (fault.None? ==> r' == AguDetect(r, d, robTag))
  {
    var r1 := AguDetect(r, d, robTag);
    if fault.None? then r1
    else
      var r2 :=
        if r.rob.Live(robTag) then
          r1.(rob := r1.rob.Update(robTag, r1.rob.At(robTag).(done := true, fault := fault)))
        else r1;
      if r.mode != Idle || r.rob.IsOlder(robTag, r.tag) then r2.(mode := Undo, tag := robTag, excp := fault.value) else r2
  }

  // ---- rollback -----------------------------------------------------------------------

  // Rcu::ReleaseResource on the entry `e`.
  function Release(c: Core, e: RobEntry): (c': Core)
    requires c.Valid() && EntryInRange(e, |c.rcu.regs|) && TagInRange(e, c.lsq.ldq.size, c.lsq.stq.size)
    requires e.d.fu == STU ==> c.lsq.stq.elems != []
    ensures c'.Valid()
  {
    var r := c.rcu;
    var r' :=
      if e.d.rdType == INT && e.phyRd != 0 then
        r.(free := r.free + [e.phyRd],
           busy := r.busy[e.phyRd := Busy(false, false, false)],
           table := r.table[e.d.isaRd := e.lphyRd])
      else r;
    var l' :=
      if e.d.fu == LDU then LsqSpec.KillLoad(c.lsq, e.lsqTag)
      else if e.d.fu == STU then LsqSpec.KillStore(c.lsq)
      else c.lsq;
    Core(r', l')
  }

  function Youngest(r: Rcu): RobEntry
    requires r.rob.elems != []
  {
    r.rob.elems[|r.rob.elems| - 1]
  }

  // The guard of one more turn of the RollBack loop that removes an entry.
  predicate CanUndoOne(c: Core) {
    && c.Valid() && c.rcu.mode == Undo && c.rcu.rob.elems != []
    && c.rcu.rob.IsOlder(c.rcu.tag, c.rcu.rob.Latest())
    && (Youngest(c.rcu).d.fu == STU && Youngest(c.rcu).valid ==> c.lsq.stq.elems != [])
  }

  // One turn of the loop: release the youngest entry and move the tail back.
  function UndoOne(c: Core): (c': Core)
    requires CanUndoOne(c)
    ensures c'.Valid()
  {
    var e := Youngest(c.rcu);
    var c1 := if e.valid then Release(c, e) else c;
    c1.(rcu := c1.rcu.(rob := c1.rcu.rob.DropLatest()))
  }

  predicate CanFinishUndo(c: Core) {
    && c.Valid() && c.rcu.mode == Undo && c.rcu.rob.elems != []
    && c.rcu.rob.Latest() == c.rcu.tag && Youngest(c.rcu).valid
    && (Youngest(c.rcu).d.fu == STU && Youngest(c.rcu).fault.Some? ==> c.lsq.stq.elems != [])
  }

  // The last turn: the rollback entry itself is reached; a faulting one is released but kept.
  function FinishUndo(c: Core): (c': Core)
    requires CanFinishUndo(c)
    ensures c'.Valid()
  {
    var e := Youngest(c.rcu);
    var c1 := c.(rcu := c.rcu.(mode := WaitForResume));
    if e.fault.Some? then Release(c1, e) else c1
  }

  // Rcu::RollBack from loop index i, with allocation width w: `i < w && older || reached`.
  function RollBack(c: Core, w: nat, i: nat): (c': Core)
    requires c.Valid()
    ensures c'.Valid()
    decreases |c.rcu.rob.elems|
  {
    if CanFinishUndo(c) then FinishUndo(c)
    else if i < w && CanUndoOne(c) then RollBack(UndoOne(c), w, i + 1)
    else c
  }

  // Rcu::Evaulate.
  function Evaluate(c: Core, w: nat): (c': Core)
    requires c.Valid()
    ensures c'.Valid()
  {
    var c1 := if c.rcu.mode == Undo then RollBack(c, w, 0) else c;
    if c1.rcu.mode == FlushBackend then c1.(rcu := c1.rcu.(mode := Idle)) else c1
  }

  // ---- commit -------------------------------------------------------------------------

  datatype Trap = Trap(epc: nat, fault: Fault)

  predicate CanCommit(c: Core) {
    && c.Valid() && c.rcu.rob.elems != []
    && (c.rcu.rob.elems[0].valid ==> c.rcu.rob.elems[0].done)
  }

  predicate CommitsNormally(c: Core)
    requires c.rcu.rob.elems != []
  {
    c.rcu.rob.elems[0].valid && c.rcu.rob.elems[0].fault.None?
  }

  predicate ResumesAtCommit(c: Core)
    requires c.rcu.rob.elems != []
  {
    c.rcu.rob.elems[0].valid && c.rcu.mode == WaitForResume && c.rcu.rob.head == c.rcu.tag
  }

  // The register half of retiring the header entry.
  function RetireRegs(r: Rcu, e: RobEntry): (r': Rcu)
    requires r.Valid() && EntryInRange(e, |r.regs|)
    ensures r'.Valid()
  {
    if e.d.rdType == INT && e.lphyRd != 0 then
      r.(free := r.free + [e.lphyRd],
         busy := r.busy[e.lphyRd := r.busy[e.lphyRd].(done := false, inUse := false)])
    else r
  }

  function RetireLsq(l: LsqSpec.Lsq, e: RobEntry): (l': LsqSpec.Lsq)
    requires l.Valid() && TagInRange(e, l.ldq.size, l.stq.size)
    ensures l'.Valid()
  {
    if e.d.fu == LDU then LsqSpec.CommitLoad(l, e.lsqTag)
    else if e.d.fu == STU then LsqSpec.CommitStore(l, e.lsqTag)
    else l
  }

  // One turn of the loop of Rcu::CommitInsn.
  function CommitOne(c: Core): (c': Core)
    requires CanCommit(c)
    ensures c'.Valid()
  {
    var e := c.rcu.rob.elems[0];
    var c1 := if CommitsNormally(c) then Core(RetireRegs(c.rcu, e), RetireLsq(c.lsq, e)) else c;
    var r2 := if ResumesAtCommit(c) then c1.rcu.(mode := FlushBackend) else c1.rcu;
    c1.(rcu := r2.(rob := r2.rob.Pop()))
  }

  // Rcu::CommitInsn on a package of n entries.
  function CommitMany(c: Core, n: nat): (r: Option<Core>)
    decreases n
  {
    if n == 0 then Some(c)
    else if CanCommit(c) then CommitMany(CommitOne(c), n - 1)
    else None
  }

  // The trap registers written when the committed entry faulted.
  function TrapAtCommit(c: Core): (t: Option<Trap>)
    requires c.rcu.rob.elems != []
  {
    if ResumesAtCommit(c) && c.rcu.rob.elems[0].fault.Some? then
      Some(Trap(c.rcu.rob.elems[0].d.pc, c.rcu.excp))
    else None
  }

  // Rcu::ReadyForCommit from its loop's i-th turn: scan from position i towards the tag.
  function ScanReady(r: Rcu, robTag: nat, width: nat, i: nat): bool
    requires r.Valid()
    decreases |r.rob.elems| - i
  {
    if i >= width || i >= |r.rob.elems| then false
    else if r.rob.Slot(i) == robTag then true
    else
      var e := r.rob.elems[i];
      if !e.isStable && (e.d.fu == LDU || e.d.fu == STU || e.d.fu == BRU) then false
      else ScanReady(r, robTag, width, i + 1)
  }

  predicate ReadyForCommit(r: Rcu, robTag: nat, width: nat)
    requires r.Valid()
  {
    if r.mode == Idle || r.rob.IsOlder(robTag, r.tag) then ScanReady(r, robTag, width, 0)
    else r.mode == WaitForResume && r.tag == robTag
  }

  // Commit::SendCommitReq: the length of the in-order package from position i on.
  function PackageFrom(r: Rcu, width: nat, i: nat): (n: nat)
    requires r.Valid()
    ensures i <= |r.rob.elems| ==> i + n <= |r.rob.elems|
    decreases |r.rob.elems| - i
  {
    if i < width && i < |r.rob.elems| && (r.rob.elems[i].done || !r.rob.elems[i].valid)
       && ReadyForCommit(r, r.rob.Slot(i), width)
    then 1 + PackageFrom(r, width, i + 1)
    else 0
  }
}
