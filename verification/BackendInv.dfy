// The inductive invariant of the backend. Every clause is a predicate over exactly the
// components it constrains, so that a transition leaving those alone keeps it at once.
module BackendInv {
  import opened DynInsn
  import opened LoopQueue
  import L = LsqSpec
  import R = RcuSpec
  import opened Backend

  // ---- shapes ---------------------------------------------------------------------------

  predicate TableOk(m: seq<nat>, regCount: nat) {
    |m| == ISA_REGS && m[0] == 0 && forall r :: 0 <= r < |m| ==> m[r] < regCount
  }

  predicate MapsOk(maps: seq<seq<nat>>, regCount: nat) {
    forall k :: 0 <= k < |maps| ==> TableOk(maps[k], regCount)
  }

  predicate ArchsOk(archs: seq<Arch>) { forall k :: 0 <= k < |archs| ==> |archs[k].x| == ISA_REGS }

  predicate AllValid(q: seq<R.RobEntry>) { forall k :: 0 <= k < |q| ==> q[k].valid }

  predicate InvShape(cfg: Config, s: State) {
    && cfg.Valid() && s.Core().Valid()
    && s.rcu.rob.size == cfg.robSize && s.lsq.ldq.size == cfg.ldqSize && s.lsq.stq.size == cfg.stqSize
    && |s.rcu.regs| == cfg.regCount
    && |s.g.maps| == |s.Rob()| + 1 && |s.g.archs| == |s.Rob()| + 1
    && MapsOk(s.g.maps, cfg.regCount) && ArchsOk(s.g.archs) && AllValid(s.Rob())
    && (s.g.released ==> s.Rob() != [])
  }

  // ---- program order ----------------------------------------------------------------------

  predicate RobSorted(q: seq<R.RobEntry>, bound: nat) {
    && (forall i, j :: 0 <= i < j < |q| ==> q[i].id < q[j].id)
    && (forall i :: 0 <= i < |q| ==> q[i].id < bound)
  }

  predicate LdqSorted(q: seq<L.LdqEntry>, bound: nat) {
    && (forall i, j :: 0 <= i < j < |q| ==> q[i].id < q[j].id)
    && (forall i :: 0 <= i < |q| ==> q[i].id < bound)
  }

  predicate StqSorted(q: seq<L.StqEntry>, bound: nat) {
    && (forall i, j :: 0 <= i < j < |q| ==> q[i].id < q[j].id)
    && (forall i :: 0 <= i < |q| ==> q[i].id < bound)
  }

  // Each live entry sits in the slot its instruction's RobTag names.
  predicate TagsMatch(rob: Queue<R.RobEntry>, robTag: map<nat, nat>) {
    && (forall id :: id in robTag ==> robTag[id] < rob.size)
    && (forall k :: 0 <= k < |rob.elems| ==>
          rob.elems[k].id in robTag && rob.Dist(robTag[rob.elems[k].id]) == k)
  }

  predicate IdsBelow(ids: set<nat>, bound: nat) { forall id :: id in ids ==> id < bound }

  predicate NotDead(held: seq<R.RobEntry>, dead: set<nat>) {
    forall k :: 0 <= k < |held| ==> held[k].id !in dead
  }

  predicate CommitsOk(ids: seq<nat>, dead: set<nat>, rob: seq<R.RobEntry>, bound: nat) {
    && (forall i :: 0 <= i < |ids| ==> ids[i] !in dead && ids[i] < bound)
    && (forall i, k :: 0 <= i < |ids| && 0 <= k < |rob| ==> ids[i] < rob[k].id)
    && (forall i, j :: 0 <= i < j < |ids| ==> ids[i] < ids[j])
  }

  predicate InvOrder(s: State) {
    && RobSorted(s.Rob(), s.nextId)
    && LdqSorted(s.lsq.ldq.elems, s.nextId)
    && StqSorted(s.lsq.stq.elems, s.nextId)
    && TagsMatch(s.rcu.rob, s.g.robTag)
    && IdsBelow(s.g.robTag.Keys, s.nextId) && IdsBelow(s.g.dead, s.nextId)
    && NotDead(s.Rob()[..s.Held()], s.g.dead)
    && CommitsOk(s.g.commitIds, s.g.dead, s.Rob(), s.nextId)
  }

  // ---- renaming -----------------------------------------------------------------------------

  predicate MapStep(m: seq<nat>, m': seq<nat>, e: R.RobEntry) {
    if e.d.Writes() then
      e.d.isaRd < |m| && e.phyRd != 0 && e.lphyRd == m[e.d.isaRd] && m' == m[e.d.isaRd := e.phyRd]
    else e.phyRd == 0 && m' == m
  }

  predicate MapsChain(rob: seq<R.RobEntry>, maps: seq<seq<nat>>)
    requires |maps| == |rob| + 1
  {
    forall k :: 0 <= k < |rob| ==> MapStep(maps[k], maps[k + 1], rob[k])
  }

  predicate InvMaps(cfg: Config, s: State)
    requires InvShape(cfg, s)
  {
    MapsChain(s.Rob(), s.g.maps) && s.rcu.table == s.g.maps[s.Held()]
  }

  predicate ArchChain(cfg: Config, rob: seq<R.RobEntry>, archs: seq<Arch>)
    requires |archs| == |rob| + 1
  {
    forall k :: 0 <= k < |rob| ==> archs[k + 1] == SeqStep(cfg, archs[k], rob[k].d)
  }

  predicate InvArch(cfg: Config, mem0: Mem, s: State)
    requires InvShape(cfg, s)
  {
    && ArchChain(cfg, s.Rob(), s.g.archs)
    && s.g.archs[0] == SeqRun(cfg, mem0, s.g.committed)
    && |s.g.committed| == |s.g.commitIds|
  }

  // ---- conservation of physical registers -----------------------------------------------------

  // The pool built by FreeList::Reset: {1 .. RegCount-2}.
  function Pool(regCount: nat): (ps: seq<nat>)
    requires regCount >= 2
    ensures |ps| == regCount - 2
    ensures forall i :: 0 <= i < |ps| ==> ps[i] == i + 1
  { seq(regCount - 2, i => i + 1) }

  function Dests(q: seq<R.RobEntry>): (ps: seq<nat>)
    ensures |ps| == |q|
    ensures forall k :: 0 <= k < |q| ==> ps[k] == q[k].phyRd
  { seq(|q|, k requires 0 <= k < |q| => q[k].phyRd) }

  // Register occurrences: free, holding a committed value, or the target of a live writer.
  function Census(free: seq<nat>, m: seq<nat>, held: seq<R.RobEntry>): multiset<nat> {
    (multiset(free) + multiset(m) + multiset(Dests(held)))[0 := 0]
  }

  predicate Conserved(regCount: nat, free: seq<nat>, m: seq<nat>, held: seq<R.RobEntry>)
    requires regCount >= 2
  {
    0 !in free && Census(free, m, held) == multiset(Pool(regCount))
  }

  predicate InvCons(cfg: Config, s: State)
    requires InvShape(cfg, s)
  {
    Conserved(cfg.regCount, s.rcu.free, s.g.maps[0], s.Rob()[..s.Held()])
  }

  // ---- recovery -------------------------------------------------------------------------------

  predicate Recovering(mode: R.RobState) { mode == R.Undo || mode == R.WaitForResume }

  // The rollback entry is live; WaitForResume means it is the youngest.
  predicate TagOk(rob: Queue<R.RobEntry>, mode: R.RobState, tag: nat) {
    && (Recovering(mode) ==> 0 <= rob.Dist(tag) < |rob.elems|)
    && (mode == R.WaitForResume ==> rob.Dist(tag) == |rob.elems| - 1)
    && (mode == R.FlushBackend ==> rob.elems == [])
  }

  // Faults and mispredictions are known only at or behind the rollback entry.
  predicate FaultsBehind(rob: Queue<R.RobEntry>, mode: R.RobState, tag: nat) {
    forall k :: 0 <= k < |rob.elems| && (rob.elems[k].fault.Some? || rob.elems[k].isMisPred) ==>
      rob.elems[k].done && Recovering(mode) && rob.Dist(tag) <= k
  }

  predicate EntriesOk(rob: seq<R.RobEntry>) {
    forall k :: 0 <= k < |rob| ==>
      (rob[k].isMisPred ==> rob[k].d.fu == BRU) && (rob[k].d.excp.Some? ==> rob[k].done)
  }

  // Why the rollback entry stopped the machine, and the cause recorded for its trap.
  predicate CauseOk(rob: Queue<R.RobEntry>, mode: R.RobState, tag: nat, excp: Fault) {
    Recovering(mode) && 0 <= rob.Dist(tag) < |rob.elems| ==>
      var e := rob.elems[rob.Dist(tag)];
      (e.fault.Some? || e.isMisPred || e.d.controlFlow) && (e.fault.Some? ==> e.fault == Some(excp))
  }

  predicate ReleasedOk(rob: seq<R.RobEntry>, mode: R.RobState, released: bool) {
    && (released ==> Recovering(mode) && rob != [] && rob[|rob| - 1].fault.Some?)
    && (mode == R.WaitForResume && rob != [] && rob[|rob| - 1].fault.Some? ==> released)
  }

  // A released entry is rolled over again only if the second release is harmless.
  predicate ReleasedSafe(rob: Queue<R.RobEntry>, mode: R.RobState, tag: nat, released: bool) {
    released && mode == R.Undo && rob.elems != [] ==>
      rob.Dist(tag) < |rob.elems| - 1 && !HoldsResource(rob.elems[|rob.elems| - 1])
  }

  predicate InvMode(s: State) {
    && TagOk(s.rcu.rob, s.rcu.mode, s.rcu.tag)
    && FaultsBehind(s.rcu.rob, s.rcu.mode, s.rcu.tag)
    && EntriesOk(s.Rob())
    && CauseOk(s.rcu.rob, s.rcu.mode, s.rcu.tag, s.rcu.excp)
    && ReleasedOk(s.Rob(), s.rcu.mode, s.g.released)
    && ReleasedSafe(s.rcu.rob, s.rcu.mode, s.rcu.tag, s.g.released)
  }

  // The package chosen for commit stays committable until it retires.
  predicate PkgOk(rob: Queue<R.RobEntry>, mode: R.RobState, tag: nat, pkg: nat) {
    && pkg <= |rob.elems|
    && (forall k :: 0 <= k < pkg ==> rob.elems[k].done)
    && (mode == R.Undo ==> pkg <= rob.Dist(tag))
    && (mode == R.WaitForResume ==> pkg <= rob.Dist(tag) + 1)
  }

  predicate InvPkg(s: State) { PkgOk(s.rcu.rob, s.rcu.mode, s.rcu.tag, s.pkg) }

  // ---- in-flight operations ---------------------------------------------------------------------

  predicate OpShape(op: Op, robSize: nat, regCount: nat, ldqSize: nat, stqSize: nat) {
    && op.d.WellDecoded() && op.robTag < robSize
    && op.phyRs1 < regCount && op.phyRs2 < regCount && op.phyRd < regCount
    && (op.d.fu == LDU ==> op.lsqTag < ldqSize)
    && (op.d.fu == STU ==> op.lsqTag < stqSize)
    && op.d.excp.None?
  }

  predicate OpsShape(cfg: Config, ops: map<nat, Op>, robTag: map<nat, nat>) {
    forall id :: id in ops ==>
      && OpShape(ops[id], cfg.robSize, cfg.regCount, cfg.ldqSize, cfg.stqSize)
      && id in robTag && robTag[id] == ops[id].robTag
  }

  predicate LiveOp(rob: Queue<R.RobEntry>, op: Op) { 0 <= rob.Dist(op.robTag) < |rob.elems| }

  predicate Tied(e: R.RobEntry, m: seq<nat>, id: nat, op: Op) {
    && e.id == id && e.d == op.d && !e.done && e.phyRd == op.phyRd && e.lsqTag == op.lsqTag
    && op.d.isaRs1 < |m| && op.d.isaRs2 < |m|
    && op.phyRs1 == m[op.d.isaRs1] && op.phyRs2 == m[op.d.isaRs2]
  }

  // An operation whose ROB slot is live is the operation of the entry in that slot.
  predicate OpsTied(rob: Queue<R.RobEntry>, maps: seq<seq<nat>>, ops: map<nat, Op>)
    requires |maps| == |rob.elems| + 1
  {
    forall id :: id in ops && LiveOp(rob, ops[id]) ==>
      Tied(rob.elems[rob.Dist(ops[id].robTag)], maps[rob.Dist(ops[id].robTag)], id, ops[id])
  }

  // Any other operation was squashed; its target register went back to the free list.
  predicate OpsSquashed(rob: Queue<R.RobEntry>, mode: R.RobState, ops: map<nat, Op>, dead: set<nat>, free: seq<nat>) {
    forall id :: id in ops && !LiveOp(rob, ops[id]) ==>
      Recovering(mode) && id in dead && (ops[id].d.Writes() ==> ops[id].phyRd in free)
  }

  // An unresolved branch that stopped dispatch is the youngest, and nothing was squashed.
  predicate BranchOk(rob: Queue<R.RobEntry>, mode: R.RobState, tag: nat, ops: map<nat, Op>) {
    Recovering(mode) && 0 <= rob.Dist(tag) < |rob.elems| &&
    rob.elems[rob.Dist(tag)].d.fu == BRU && !rob.elems[rob.Dist(tag)].done ==>
      rob.Dist(tag) == |rob.elems| - 1 && forall id :: id in ops ==> LiveOp(rob, ops[id])
  }

  predicate InvOps(cfg: Config, s: State)
    requires InvShape(cfg, s)
  {
    && OpsShape(cfg, s.ops, s.g.robTag)
    && OpsTied(s.rcu.rob, s.g.maps, s.ops)
    && OpsSquashed(s.rcu.rob, s.rcu.mode, s.ops, s.g.dead, s.rcu.free)
    && BranchOk(s.rcu.rob, s.rcu.mode, s.rcu.tag, s.ops)
  }

  // ---- values -----------------------------------------------------------------------------------

  predicate Done(busy: seq<R.Busy>, p: nat) { p < |busy| && busy[p].done }

  function Reg(regs: seq<Val>, p: nat): Val { if p < |regs| then regs[p] else 0 }

  // Register 0 reads as zero; every committed mapping holds its sequential value.
  predicate ArchHeld(m: seq<nat>, x: seq<Val>, busy: seq<R.Busy>, regs: seq<Val>) {
    && Done(busy, 0) && Reg(regs, 0) == 0 && |m| == |x|
    && forall r :: 0 <= r < |m| ==> Done(busy, m[r]) && Reg(regs, m[r]) == x[r]
  }

  // A written target register holds the writer's sequential result.
  predicate ResultsHeld(held: seq<R.RobEntry>, archs: seq<Arch>, busy: seq<R.Busy>, regs: seq<Val>)
    requires |archs| > |held|
  {
    forall k :: 0 <= k < |held| && held[k].d.Writes() && Done(busy, held[k].phyRd) ==>
      Reg(regs, held[k].phyRd) == XReg(archs[k + 1].x, held[k].d.isaRd)
  }

  predicate DoneHeld(rob: seq<R.RobEntry>, busy: seq<R.Busy>) {
    forall k :: 0 <= k < |rob| && rob[k].done && rob[k].fault.None? && rob[k].d.Writes() ==> Done(busy, rob[k].phyRd)
  }

  predicate InvRegs(cfg: Config, s: State)
    requires InvShape(cfg, s)
  {
    && ArchHeld(s.g.maps[0], s.g.archs[0].x, s.rcu.busy, s.rcu.regs)
    && ResultsHeld(s.Rob()[..s.Held()], s.g.archs, s.rcu.busy, s.rcu.regs)
    && DoneHeld(s.Rob(), s.rcu.busy)
  }

  predicate OperandsOk(a: Arch, op: Op) {
    && (op.d.rs1Type == INT && op.a.Some? ==> op.a.value == OperandA(a, op.d))
    && (op.d.rs2Type == INT && op.b.Some? ==> op.b.value == OperandB(a, op.d))
    && (op.stage != Waiting ==> op.Ready())
  }

  predicate ResultOk(cfg: Config, a: Arch, d: Decoded, result: Val, fault: Option<Fault>) {
    && result == Result(cfg, a, d)
    && fault == (if d.fu == LDU then cfg.loadFault(d, Address(cfg, a, d)) else None)
  }

  predicate StageOk(cfg: Config, a: Arch, op: Op) {
    match op.stage
    case Completed(result, fault) => op.d.fu != STU && ResultOk(cfg, a, op.d, result, fault)
    case Forwarded(result, fault) => op.d.fu != STU && ResultOk(cfg, a, op.d, result, fault)
    case InLsq => op.d.fu == LDU
    case Waiting => true
  }

  predicate ValsOk(cfg: Config, rob: Queue<R.RobEntry>, archs: seq<Arch>, ops: map<nat, Op>)
    requires |archs| > |rob.elems|
  {
    forall id :: id in ops && LiveOp(rob, ops[id]) ==>
      OperandsOk(archs[rob.Dist(ops[id].robTag)], ops[id]) && StageOk(cfg, archs[rob.Dist(ops[id].robTag)], ops[id])
  }

  predicate ForwardedDone(rob: Queue<R.RobEntry>, ops: map<nat, Op>, busy: seq<R.Busy>) {
    forall id :: id in ops && LiveOp(rob, ops[id]) && ops[id].stage.Forwarded? && ops[id].d.Writes() ==>
      Done(busy, ops[id].phyRd)
  }

  predicate InvVals(cfg: Config, s: State)
    requires InvShape(cfg, s)
  {
    ValsOk(cfg, s.rcu.rob, s.g.archs, s.ops) && ForwardedDone(s.rcu.rob, s.ops, s.rcu.busy)
  }

  // ---- load queue -------------------------------------------------------------------------------

  predicate Active(e: L.LdqEntry) { !e.killed && !e.commited }

  // Position of an instruction's ROB slot.
  function IdPos(rob: Queue<R.RobEntry>, robTag: map<nat, nat>, id: nat): int {
    if id in robTag then rob.Dist(robTag[id]) else -1
  }

  // Each live load owns the slot its tag names.
  predicate RobLoads(rob: seq<R.RobEntry>, held: nat, ldq: Queue<L.LdqEntry>) {
    forall k :: 0 <= k < |rob| && rob[k].d.fu == LDU ==>
      && (0 <= ldq.Dist(rob[k].lsqTag) < |ldq.elems| ==> ldq.elems[ldq.Dist(rob[k].lsqTag)].id == rob[k].id)
      && (k < held ==> 0 <= ldq.Dist(rob[k].lsqTag) < |ldq.elems| && Active(ldq.elems[ldq.Dist(rob[k].lsqTag)]))
  }

  // Each active load is a live instruction still holding its slot.
  predicate LoadsTied(rob: Queue<R.RobEntry>, held: nat, robTag: map<nat, nat>, ldq: Queue<L.LdqEntry>)
    requires held <= |rob.elems|
  {
    forall j :: 0 <= j < |ldq.elems| && Active(ldq.elems[j]) ==>
      && 0 <= IdPos(rob, robTag, ldq.elems[j].id) < held
      && var e := rob.elems[IdPos(rob, robTag, ldq.elems[j].id)];
         e.id == ldq.elems[j].id && e.d == ldq.elems[j].d && e.d.fu == LDU && ldq.Dist(e.lsqTag) == j
  }

  predicate LoadAddrs(cfg: Config, rob: Queue<R.RobEntry>, robTag: map<nat, nat>, archs: seq<Arch>, ldq: seq<L.LdqEntry>) {
    forall j :: 0 <= j < |ldq| && Active(ldq[j]) ==>
      && (ldq[j].state != L.LoadWaitSend ==> ldq[j].addressReady)
      && (ldq[j].addressReady && 0 <= IdPos(rob, robTag, ldq[j].id) < |archs| ==>
            ldq[j].address == Address(cfg, archs[IdPos(rob, robTag, ldq[j].id)], ldq[j].d))
  }

  // How far the entry of an active load and its instruction have come, in step.
  predicate StageMatches(e: L.LdqEntry, op: Op) {
    match op.stage
    case Waiting => !e.addressReady
    case InLsq => e.addressReady && e.state != L.LoadExecuted
    case Completed(_, _) => e.state == L.LoadExecuted
    case Forwarded(_, _) => e.state == L.LoadExecuted
  }

  predicate LoadStages(ldq: seq<L.LdqEntry>, ops: map<nat, Op>) {
    forall j :: 0 <= j < |ldq| && Active(ldq[j]) ==>
      && (ldq[j].addressReady && ldq[j].state != L.LoadExecuted ==> ldq[j].id in ops)
      && (ldq[j].id in ops ==> StageMatches(ldq[j], ops[ldq[j].id]))
  }

  // A load that finished without a fault has had its response.
  predicate LoadsDone(rob: seq<R.RobEntry>, ldq: Queue<L.LdqEntry>) {
    forall k :: 0 <= k < |rob| && rob[k].d.fu == LDU && rob[k].done && rob[k].fault.None?
                && 0 <= ldq.Dist(rob[k].lsqTag) < |ldq.elems| ==>
      ldq.elems[ldq.Dist(rob[k].lsqTag)].state == L.LoadExecuted
  }

  predicate LoadsRetired(ldq: seq<L.LdqEntry>, dead: set<nat>, rob: seq<R.RobEntry>) {
    && (forall j :: 0 <= j < |ldq| && ldq[j].killed ==> ldq[j].id in dead && !ldq[j].commited)
    && (forall j :: 0 <= j < |ldq| && ldq[j].commited ==> ldq[j].state == L.LoadExecuted)
    && (forall j, k :: 0 <= j < |ldq| && 0 <= k < |rob| ==> ldq[j].commited ==> ldq[j].id < rob[k].id)
  }

  // The slot an operation will write still belongs to it, if it is live at all.
  predicate LoadOps(ldq: Queue<L.LdqEntry>, ops: map<nat, Op>) {
    forall id :: id in ops && ops[id].d.fu == LDU && 0 <= ldq.Dist(ops[id].lsqTag) < |ldq.elems| ==>
      ldq.elems[ldq.Dist(ops[id].lsqTag)].id == id
  }

  // A response in flight answers the request of the entry in its slot.
  predicate RespsTied(ldq: Queue<L.LdqEntry>, lresp: map<nat, Resp>) {
    forall slot :: slot in lresp ==>
      && slot < ldq.size && 0 <= ldq.Dist(slot) < |ldq.elems|
      && ldq.elems[ldq.Dist(slot)].id == lresp[slot].id && ldq.elems[ldq.Dist(slot)].state == L.LoadInflight
  }

  predicate RespsOk(cfg: Config, rob: Queue<R.RobEntry>, robTag: map<nat, nat>, archs: seq<Arch>,
                    ldq: Queue<L.LdqEntry>, lresp: map<nat, Resp>)
  {
    forall slot :: slot in lresp && 0 <= ldq.Dist(slot) < |ldq.elems| && Active(ldq.elems[ldq.Dist(slot)])
                   && 0 <= IdPos(rob, robTag, ldq.elems[ldq.Dist(slot)].id) < |archs| ==>
      ResultOk(cfg, archs[IdPos(rob, robTag, ldq.elems[ldq.Dist(slot)].id)], ldq.elems[ldq.Dist(slot)].d,
               lresp[slot].value, lresp[slot].fault)
  }

  predicate InvLdq(cfg: Config, s: State) {
    && RobLoads(s.Rob(), s.Held(), s.lsq.ldq)
    && LoadsTied(s.rcu.rob, s.Held(), s.g.robTag, s.lsq.ldq)
    && LoadAddrs(cfg, s.rcu.rob, s.g.robTag, s.g.archs, s.lsq.ldq.elems)
    && LoadStages(s.lsq.ldq.elems, s.ops)
    && LoadsDone(s.Rob(), s.lsq.ldq)
    && LoadsRetired(s.lsq.ldq.elems, s.g.dead, s.Rob())
    && LoadOps(s.lsq.ldq, s.ops)
    && RespsTied(s.lsq.ldq, s.lresp)
    && RespsOk(cfg, s.rcu.rob, s.g.robTag, s.g.archs, s.lsq.ldq, s.lresp)
  }

  // ---- store queue ------------------------------------------------------------------------------

  predicate RobStores(rob: seq<R.RobEntry>, held: nat, stq: Queue<L.StqEntry>) {
    forall k :: 0 <= k < |rob| && rob[k].d.fu == STU && k < held ==>
      && 0 <= stq.Dist(rob[k].lsqTag) < |stq.elems|
      && var t := stq.elems[stq.Dist(rob[k].lsqTag)];
         t.id == rob[k].id && t.d == rob[k].d && !t.commited
  }

  // A finished store's entry holds its sequential address and data.
  predicate StoreData(cfg: Config, rob: seq<R.RobEntry>, archs: seq<Arch>, stq: Queue<L.StqEntry>)
    requires |archs| > |rob|
  {
    forall k :: 0 <= k < |rob| && rob[k].d.fu == STU && rob[k].done && rob[k].fault.None?
                && 0 <= stq.Dist(rob[k].lsqTag) < |stq.elems| ==>
      var t := stq.elems[stq.Dist(rob[k].lsqTag)];
      t.address == Address(cfg, archs[k], rob[k].d) && t.data == OperandB(archs[k], rob[k].d)
  }

  predicate StoresTied(rob: Queue<R.RobEntry>, held: nat, robTag: map<nat, nat>, stq: Queue<L.StqEntry>)
    requires held <= |rob.elems|
  {
    forall j :: 0 <= j < |stq.elems| && !stq.elems[j].commited ==>
      && stq.elems[j].state == L.StoreWaitSend
      && 0 <= IdPos(rob, robTag, stq.elems[j].id) < held
      && var e := rob.elems[IdPos(rob, robTag, stq.elems[j].id)];
         e.id == stq.elems[j].id && e.d.fu == STU && stq.Dist(e.lsqTag) == j
  }

  predicate StoresRetired(stq: seq<L.StqEntry>, rob: seq<R.RobEntry>) {
    forall j, k :: 0 <= j < |stq| && 0 <= k < |rob| ==> stq[j].commited ==> stq[j].id < rob[k].id
  }

  predicate StoresKept(stq: seq<L.StqEntry>, commitIds: seq<nat>) {
    forall j :: 0 <= j < |stq| && stq[j].commited ==> stq[j].id in commitIds
  }

  predicate StoreOps(stq: Queue<L.StqEntry>, ops: map<nat, Op>) {
    forall id :: id in ops && ops[id].d.fu == STU && 0 <= stq.Dist(ops[id].lsqTag) < |stq.elems| ==>
      stq.elems[stq.Dist(ops[id].lsqTag)].id == id
  }

  predicate StoreResps(stq: Queue<L.StqEntry>, sresp: map<nat, nat>) {
    forall slot :: slot in sresp ==>
      && slot < stq.size && 0 <= stq.Dist(slot) < |stq.elems|
      && stq.elems[stq.Dist(slot)].id == sresp[slot] && stq.elems[stq.Dist(slot)].state == L.StoreInflight
  }

  predicate StoresInOrder(stq: seq<L.StqEntry>) {
    forall i, j :: 0 <= i < j < |stq| && stq[j].state != L.StoreWaitSend ==> stq[i].state != L.StoreWaitSend
  }

  predicate InvStq(cfg: Config, s: State)
    requires InvShape(cfg, s)
  {
    && RobStores(s.Rob(), s.Held(), s.lsq.stq)
    && StoreData(cfg, s.Rob(), s.g.archs, s.lsq.stq)
    && StoresTied(s.rcu.rob, s.Held(), s.g.robTag, s.lsq.stq)
    && StoresRetired(s.lsq.stq.elems, s.Rob())
    && StoresKept(s.lsq.stq.elems, s.g.commitIds)
    && StoreOps(s.lsq.stq, s.ops)
    && StoreResps(s.lsq.stq, s.sresp)
    && StoresInOrder(s.lsq.stq.elems)
  }

  // ---- memory dependences -----------------------------------------------------------------------

  // hasDependancy holds while an older store is queued; the recorded slot is the youngest of them.
  predicate DepOk(e: L.LdqEntry, q: Queue<L.StqEntry>) {
    if e.hasDependancy then
      && e.oldestStqTag < q.size && 0 <= q.Dist(e.oldestStqTag) < |q.elems|
      && forall i :: 0 <= i < |q.elems| ==> if i <= q.Dist(e.oldestStqTag) then q.elems[i].id < e.id else e.id < q.elems[i].id
    else forall i :: 0 <= i < |q.elems| ==> e.id < q.elems[i].id
  }

  predicate DepsOk(ldq: seq<L.LdqEntry>, stq: Queue<L.StqEntry>) {
    forall j :: 0 <= j < |ldq| && !ldq[j].killed ==> DepOk(ldq[j], stq)
  }

  // ---- memory -----------------------------------------------------------------------------------

  predicate Pending(t: L.StqEntry) { t.commited && t.state == L.StoreWaitSend }

  // Memory once the committed stores still queued have been written.
  function Drain(cfg: Config, mem: Mem, q: seq<L.StqEntry>): Mem
    decreases |q|
  {
    if q == [] then mem
    else Drain(cfg, if Pending(q[0]) then cfg.store(mem, q[0].d, q[0].address, q[0].data) else mem, q[1..])
  }

  // ---- order of memory accesses -----------------------------------------------------------------

  predicate TraceSorted(trace: seq<nat>, dead: set<nat>, bound: nat) {
    && (forall i, j :: 0 <= i < j < |trace| && trace[i] !in dead && trace[j] !in dead ==> trace[i] < trace[j])
    && (forall i :: 0 <= i < |trace| ==> trace[i] < bound)
  }

  predicate TraceBeforeStores(trace: seq<nat>, dead: set<nat>, stq: seq<L.StqEntry>) {
    forall i, j :: 0 <= i < |trace| && 0 <= j < |stq| ==>
      trace[i] !in dead && stq[j].state == L.StoreWaitSend ==> trace[i] < stq[j].id
  }

  predicate TraceBeforeLoads(trace: seq<nat>, dead: set<nat>, ldq: seq<L.LdqEntry>) {
    forall i, j :: 0 <= i < |trace| && 0 <= j < |ldq| ==>
      trace[i] !in dead && !ldq[j].killed && ldq[j].state == L.LoadWaitSend ==> trace[i] < ldq[j].id
  }

  predicate InvMem(cfg: Config, s: State)
    requires InvShape(cfg, s)
  {
    && DepsOk(s.lsq.ldq.elems, s.lsq.stq)
    && Drain(cfg, s.mem, s.lsq.stq.elems) == s.g.archs[0].mem
    && TraceSorted(s.g.trace, s.g.dead, s.nextId)
    && TraceBeforeStores(s.g.trace, s.g.dead, s.lsq.stq.elems)
    && TraceBeforeLoads(s.g.trace, s.g.dead, s.lsq.ldq.elems)
  }

  predicate Inv(cfg: Config, mem0: Mem, s: State) {
    && InvShape(cfg, s) && InvOrder(s) && InvMaps(cfg, s) && InvArch(cfg, mem0, s) && InvCons(cfg, s)
    && InvMode(s) && InvPkg(s) && InvOps(cfg, s) && InvRegs(cfg, s) && InvVals(cfg, s)
    && InvLdq(cfg, s) && InvStq(cfg, s) && InvMem(cfg, s)
  }
}
